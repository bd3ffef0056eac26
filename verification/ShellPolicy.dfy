/** Earendil's command policy: whitespace normalisation, the exact-match allowlist, and the one
    parameterised form, `ls` or `ls -la` of a path that resolves under a configured root. */
module ShellPolicy {
  import opened Options

  /** The host: which characters are white space, how a path resolves (to its components) in the present
      file system, and the settings. */
  datatype Host = Host(isSpace: char -> bool, resolve: string -> seq<string>, roots: seq<seq<string>>, allowAny: bool)

  /** Assumed of the host: a blank is white space. */
  predicate BlankIsSpace(h: Host) {
    h.isSpace(' ')
  }

  /** Components of a path are not empty and hold no slash. */
  ghost predicate AreNames(path: seq<string>) {
    forall c :: c in path ==> c != "" && '/' !in c
  }

  /** Assumed of path resolution. */
  ghost predicate ResolvesToNames(h: Host) {
    forall text: string :: AreNames(h.resolve(text))
  }

  const ALLOWED: seq<string> :=
    ["uptime", "df -h", "free -m", "whoami", "pwd", "ls -la", "date", "hostname", "uname -a"]

  const LS_FORMS: seq<seq<string>> := [["ls"], ["ls", "-la"]]

  // ---- Splitting and joining.

  /** Length of the longest prefix without white space. */
  function WordLength(h: Host, s: string): (n: nat)
    ensures n <= |s|
  {
    if s == "" || h.isSpace(s[0]) then 0 else 1 + WordLength(h, s[1..])
  }

  /** `s.split()` */
  function Words(h: Host, s: string): seq<string>
    decreases |s|
  {
    if s == "" then []
    else if h.isSpace(s[0]) then Words(h, s[1..])
    else [s[..WordLength(h, s)]] + Words(h, s[WordLength(h, s)..])
  }

  /** `" ".join(ws)` */
  function Join(ws: seq<string>): string {
    if ws == [] then "" else if |ws| == 1 then ws[0] else ws[0] + " " + Join(ws[1..])
  }

  function IndexOf(c: char, s: string): (i: nat)
    requires c in s
    ensures i < |s| && s[i] == c && c !in s[..i]
  {
    if s[0] == c then 0 else 1 + IndexOf(c, s[1..])
  }

  /** `s.split(c)` */
  function Split(c: char, s: string): (parts: seq<string>)
    ensures |parts| > 0
    decreases |s|
  {
    if c !in s then [s] else [s[..IndexOf(c, s)]] + Split(c, s[IndexOf(c, s) + 1..])
  }

  function Normalize(h: Host, s: string): string {
    Join(Words(h, s))
  }

  // ---- The policy.

  function LsPathArgv(h: Host, norm: string): Option<seq<string>> {
    var parts := Split(' ', norm);
    var head, path := parts[..|parts| - 1], parts[|parts| - 1];
    if head !in LS_FORMS || h.roots == [] then None
    else if !("/" <= path) || ".." in Split('/', path) then None
    else if !Under(h.roots, h.resolve(path)) then None
    else Some(head + [Render(h.resolve(path))])
  }

  /** Some root's components begin the path's. */
  predicate Under(roots: seq<seq<string>>, path: seq<string>) {
    exists r :: r in roots && r <= path
  }

  /** An absolute path as text. */
  function Render(path: seq<string>): string {
    if path == [] then "/" else "/" + JoinPath(path)
  }

  function JoinPath(path: seq<string>): string
    requires path != []
  {
    if |path| == 1 then path[0] else path[0] + "/" + JoinPath(path[1..])
  }

  /** The normalised command, or None for a refusal. */
  function CheckCommand(h: Host, command: string): Option<string> {
    var norm := Normalize(h, command);
    if h.allowAny then Some(norm)
    else if norm !in ALLOWED && LsPathArgv(h, norm).None? then None
    else Some(norm)
  }

  /** How a command is run: not at all, by a shell, or as an argument list.  Allowlist entries hold no
      quotes, so they are tokenised at their blanks. */
  datatype Launch = Refused | ByShell | Exec(argv: seq<string>)

  function ArgvFor(h: Host, command: string): Launch {
    var norm := Normalize(h, command);
    var argv := if norm in ALLOWED then Some(Split(' ', norm)) else LsPathArgv(h, norm);
    match argv
    case Some(a) => Exec(a)
    case None => if h.allowAny then ByShell else Refused
  }

  // ---- Laws of splitting and joining.

  predicate IsWord(h: Host, w: string) {
    w != "" && forall i :: 0 <= i < |w| ==> !h.isSpace(w[i])
  }

  ghost predicate AreWords(h: Host, ws: seq<string>) {
    forall i :: 0 <= i < |ws| ==> IsWord(h, ws[i])
  }

  lemma {:induction false} WordLengthIsWord(h: Host, s: string)
    ensures forall i :: 0 <= i < WordLength(h, s) ==> !h.isSpace(s[i])
    ensures s != "" && !h.isSpace(s[0]) ==> WordLength(h, s) > 0
  {
    if s != "" && !h.isSpace(s[0]) {
      WordLengthIsWord(h, s[1..]);
      forall i | 0 <= i < WordLength(h, s)
        ensures !h.isSpace(s[i])
      {
        assert i > 0 ==> s[i] == s[1..][i - 1];
      }
    }
  }

  /** Splitting yields non-empty words without white space. */
  lemma {:induction false} WordsAreWords(h: Host, s: string)
    ensures AreWords(h, Words(h, s))
    decreases |s|
  {
    if s != "" {
      if h.isSpace(s[0]) {
        WordsAreWords(h, s[1..]);
      } else {
        WordLengthIsWord(h, s);
        WordsAreWords(h, s[WordLength(h, s)..]);
      }
    }
  }

  lemma {:induction false} WordLengthOfAppend(h: Host, w: string, rest: string)
    requires forall i :: 0 <= i < |w| ==> !h.isSpace(w[i])
    requires rest == "" || h.isSpace(rest[0])
    ensures WordLength(h, w + rest) == |w|
  {
    if w == "" {
      assert w + rest == rest;
    } else {
      assert (w + rest)[1..] == w[1..] + rest;
      WordLengthOfAppend(h, w[1..], rest);
    }
  }

  /** Splitting undoes joining. */
  lemma {:induction false} WordsOfJoin(h: Host, ws: seq<string>)
    requires BlankIsSpace(h) && AreWords(h, ws)
    ensures Words(h, Join(ws)) == ws
  {
    if ws != [] {
      var w, tail := ws[0], ws[1..];
      assert IsWord(h, w);
      var rest := if tail == [] then "" else " " + Join(tail);
      var s := Join(ws);
      assert s == w + rest;
      WordLengthOfAppend(h, w, rest);
      assert s[..|w|] == w && s[|w|..] == rest;
      WordsOfJoin(h, tail);
      if tail != [] {
        assert rest[1..] == Join(tail);
        assert Words(h, rest) == Words(h, rest[1..]);
      }
    }
  }

  /** Words never cross white space: with the words of a text without any, that is all there is to them. */
  lemma {:induction false} WordsSplitAtSpace(h: Host, a: string, c: char, b: string)
    requires h.isSpace(c)
    ensures Words(h, a + [c] + b) == Words(h, a) + Words(h, b)
    decreases |a|
  {
    var s := a + [c] + b;
    if a == "" {
      assert s[1..] == b;
    } else if h.isSpace(a[0]) {
      assert s[1..] == a[1..] + [c] + b;
      WordsSplitAtSpace(h, a[1..], c, b);
    } else {
      var n := WordLength(h, a);
      WordLengthOfPrefix(h, a, [c] + b);
      assert s == a + ([c] + b);
      assert s[..n] == a[..n] && s[n..] == a[n..] + [c] + b;
      WordLengthIsWord(h, a);
      WordsSplitAtSpace(h, a[n..], c, b);
      assert [a[..n]] + (Words(h, a[n..]) + Words(h, b)) == ([a[..n]] + Words(h, a[n..])) + Words(h, b);
    }
  }

  lemma {:induction false} WordLengthOfPrefix(h: Host, a: string, rest: string)
    requires rest != "" && h.isSpace(rest[0])
    ensures WordLength(h, a + rest) == WordLength(h, a)
  {
    if a == "" {
      assert a + rest == rest;
    } else {
      assert (a + rest)[1..] == a[1..] + rest;
      WordLengthOfPrefix(h, a[1..], rest);
    }
  }

  /** A text without white space is its own only word. */
  lemma WordsOfWord(h: Host, w: string)
    ensures Words(h, "") == []
    ensures IsWord(h, w) ==> Words(h, w) == [w]
  {
    if IsWord(h, w) {
      WordLengthOfAppend(h, w, "");
      assert w + "" == w && w[..|w|] == w && w[|w|..] == "";
    }
  }

  lemma NormalizeIsIdempotent(h: Host, s: string)
    requires BlankIsSpace(h)
    ensures Normalize(h, Normalize(h, s)) == Normalize(h, s)
    ensures Words(h, Normalize(h, s)) == Words(h, s)
  {
    WordsAreWords(h, s);
    WordsOfJoin(h, Words(h, s));
  }

  lemma SplitAt(c: char, w: string, rest: string)
    requires c !in w
    ensures Split(c, w) == [w] && Split(c, w + [c] + rest) == [w] + Split(c, rest)
  {
    var s := w + [c] + rest;
    assert s[|w|] == c && s[..|w|] == w && s[|w| + 1..] == rest;
    FirstIndex(c, s, |w|);
  }

  lemma {:induction false} FirstIndex(c: char, s: string, k: nat)
    requires k < |s| && s[k] == c && c !in s[..k]
    ensures IndexOf(c, s) == k
  {
    if k > 0 {
      assert s[0] in s[..k];
      assert s[1..][..k - 1] == s[..k][1..];
      FirstIndex(c, s[1..], k - 1);
    }
  }

  /** Splitting at single blanks undoes joining too, for at least one word. */
  lemma {:induction false} SplitOfJoin(h: Host, ws: seq<string>)
    requires BlankIsSpace(h) && AreWords(h, ws) && ws != []
    ensures Split(' ', Join(ws)) == ws
  {
    var w := ws[0];
    assert IsWord(h, w);
    assert ' ' !in w;
    if |ws| > 1 {
      SplitOfJoin(h, ws[1..]);
      SplitAt(' ', w, Join(ws[1..]));
      assert w + [' '] + Join(ws[1..]) == Join(ws);
    }
  }

  // ---- What is allowed.

  /** The words of a command are an `ls` form and an absolute path without ".." that resolves under a root. */
  ghost predicate IsLsOfAllowedPath(h: Host, ws: seq<string>) {
    && ws != [] && (ws[..|ws| - 1] == ["ls"] || ws[..|ws| - 1] == ["ls", "-la"])
    && "/" <= ws[|ws| - 1] && ".." !in Split('/', ws[|ws| - 1])
    && exists r :: r in h.roots && r <= h.resolve(ws[|ws| - 1])
  }

  /** The path form is accepted exactly for the commands whose words are that form; what then runs is the
      same form with the resolved path. */
  lemma LsFormIsExact(h: Host, command: string)
    requires BlankIsSpace(h)
    ensures var ws := Words(h, command);
            var argv := LsPathArgv(h, Normalize(h, command));
            && (argv.Some? <==> IsLsOfAllowedPath(h, ws))
            && (argv.Some? ==> argv.value == ws[..|ws| - 1] + [Render(h.resolve(ws[|ws| - 1]))])
  {
    var ws := Words(h, command);
    WordsAreWords(h, command);
    if ws != [] {
      SplitOfJoin(h, ws);
    } else {
      assert Split(' ', "") == [""];
      assert [""][..0] == [];
    }
  }

  /** The check at enqueue time and the launch in the worker accept the same commands, and checking first
      does not change what is launched. */
  lemma CheckAgreesWithLaunch(h: Host, command: string)
    requires BlankIsSpace(h)
    ensures CheckCommand(h, command).Some? <==> !ArgvFor(h, command).Refused?
    ensures CheckCommand(h, command).Some? ==>
              CheckCommand(h, command).value == Join(Words(h, command))
    ensures CheckCommand(h, command).Some? ==>
              ArgvFor(h, CheckCommand(h, command).value) == ArgvFor(h, command)
              && CheckCommand(h, CheckCommand(h, command).value) == CheckCommand(h, command)
  {
    NormalizeIsIdempotent(h, command);
  }

  /** An allowlisted command is launched as its own words. */
  lemma AllowedRunsAsItsWords(h: Host, command: string)
    requires BlankIsSpace(h) && Normalize(h, command) in ALLOWED
    ensures Split(' ', Normalize(h, command)) == Words(h, command)
  {
    hide Split;
    var ws := Words(h, command);
    WordsAreWords(h, command);
    assert ws != [] by {
      assert "" !in ALLOWED;
    }
    SplitOfJoin(h, ws);
  }

  /** What an absolute path is made of. */
  function Components(text: string): seq<string> {
    if text == "/" then [] else Split('/', text)[1..]
  }

  lemma {:induction false} JoinPathSplits(path: seq<string>)
    requires path != [] && forall c :: c in path ==> '/' !in c
    ensures Split('/', JoinPath(path)) == path
  {
    assert path[0] in path;
    if |path| == 1 {
      SplitAt('/', path[0], "");
    } else {
      JoinPathSplits(path[1..]);
      SplitAt('/', path[0], JoinPath(path[1..]));
      assert path[0] + ['/'] + JoinPath(path[1..]) == JoinPath(path);
    }
  }

  /** An absolute path is written so that its components can be read back. */
  lemma RenderedPathReadsBack(path: seq<string>)
    requires AreNames(path)
    ensures "/" <= Render(path) && Components(Render(path)) == path
  {
    if path != [] {
      JoinPathSplits(path);
      SplitAt('/', "", JoinPath(path));
      assert "" + ['/'] + JoinPath(path) == Render(path);
      assert JoinPath(path) != "" by {
        assert path[0] in path;
      }
    }
  }

  /** The argument lists of the allowlist. */
  predicate IsListed(argv: seq<string>) {
    argv in [["uptime"], ["df", "-h"], ["free", "-m"], ["whoami"], ["pwd"], ["ls", "-la"], ["date"], ["hostname"],
             ["uname", "-a"]]
  }

  lemma AllowedIsListed(norm: string)
    ensures norm in ALLOWED <==> IsListed(Split(' ', norm))
  {
    hide Split, Join;
    OneToken(norm, "uptime");
    OneToken(norm, "whoami");
    OneToken(norm, "pwd");
    OneToken(norm, "date");
    OneToken(norm, "hostname");
    TwoTokens(norm, "df", "-h", "df -h");
    TwoTokens(norm, "free", "-m", "free -m");
    TwoTokens(norm, "ls", "-la", "ls -la");
    TwoTokens(norm, "uname", "-a", "uname -a");
  }

  lemma OneToken(norm: string, w: string)
    requires ' ' !in w
    ensures norm == w <==> Split(' ', norm) == [w]
  {
    SplitIsInjective(norm);
  }

  lemma TwoTokens(norm: string, a: string, b: string, both: string)
    requires ' ' !in a && ' ' !in b && both == a + " " + b
    ensures norm == both <==> Split(' ', norm) == [a, b]
  {
    SplitAt(' ', a, b);
    SplitAt(' ', b, "");
    assert a + [' '] + b == a + " " + b;
    SplitIsInjective(norm);
    assert Join([a, b]) == a + " " + b;
  }

  /** Joining undoes splitting at blanks, so that a text is known by its parts. */
  lemma {:induction false} SplitIsInjective(s: string)
    ensures Join(Split(' ', s)) == s
    decreases |s|
  {
    if ' ' in s {
      var i := IndexOf(' ', s);
      SplitIsInjective(s[i + 1..]);
      assert s == s[..i] + " " + s[i + 1..];
      assert Split(' ', s)[1..] == Split(' ', s[i + 1..]);
    }
  }

  /** The last argument is the absolute path that the last word of the command resolves to, and its components
      extend a configured root. */
  ghost predicate NamesAllowedPath(h: Host, arg: string, word: string) {
    && "/" <= arg && Components(arg) == h.resolve(word)
    && exists r :: r in h.roots && r <= Components(arg)
  }

  /** With the escape hatch off nothing runs through a shell, and an argument list is either the words of one
      of nine listed commands or an `ls` form with a path whose components extend a configured root. */
  lemma OnlyAllowedRuns(h: Host, command: string)
    requires BlankIsSpace(h) && ResolvesToNames(h) && !h.allowAny
    ensures var ws := Words(h, command);
            match ArgvFor(h, command)
            case ByShell => false
            case Refused => !IsListed(ws) && !IsLsOfAllowedPath(h, ws)
            case Exec(argv) =>
              || (argv == ws && IsListed(argv))
              || (&& IsLsOfAllowedPath(h, ws) && |argv| == |ws|
                  && (argv[..|argv| - 1] == ws[..|argv| - 1] == ["ls"]
                      || argv[..|argv| - 1] == ws[..|argv| - 1] == ["ls", "-la"])
                  && NamesAllowedPath(h, argv[|argv| - 1], ws[|ws| - 1]))
  {
    var ws, norm := Words(h, command), Normalize(h, command);
    ListedExactly(h, command);
    LsFormIsExact(h, command);
    hide Split, Words, Join, LsPathArgv, Render, IsLsOfAllowedPath, IsListed, NamesAllowedPath;
    if norm in ALLOWED {
      AllowedRunsAsItsWords(h, command);
    } else if IsLsOfAllowedPath(h, ws) {
      LsArgvNamesAllowedPath(h, ws);
    }
  }

  /** With the escape hatch on everything is accepted, and what the allowlist does not cover runs in a shell. */
  lemma HatchRunsTheRest(h: Host, command: string)
    requires BlankIsSpace(h) && h.allowAny
    ensures var ws := Words(h, command);
            && CheckCommand(h, command).Some?
            && (ArgvFor(h, command).ByShell? <==> !IsListed(ws) && !IsLsOfAllowedPath(h, ws))
            && !ArgvFor(h, command).Refused?
  {
    ListedExactly(h, command);
    LsFormIsExact(h, command);
    hide Split, Words, Join, LsPathArgv, IsLsOfAllowedPath, IsListed;
  }

  lemma ListedExactly(h: Host, command: string)
    requires BlankIsSpace(h)
    ensures Normalize(h, command) in ALLOWED <==> IsListed(Words(h, command))
  {
    var ws, norm := Words(h, command), Normalize(h, command);
    AllowedIsListed(norm);
    WordsAreWords(h, command);
    if ws != [] {
      hide Split, IsListed, Words;
      SplitOfJoin(h, ws);
    }
  }

  lemma LsArgvNamesAllowedPath(h: Host, ws: seq<string>)
    requires ResolvesToNames(h) && IsLsOfAllowedPath(h, ws)
    ensures var argv := ws[..|ws| - 1] + [Render(h.resolve(ws[|ws| - 1]))];
            && argv[..|argv| - 1] == ws[..|ws| - 1] && (ws[..|ws| - 1] == ["ls"] || ws[..|ws| - 1] == ["ls", "-la"])
            && NamesAllowedPath(h, argv[|argv| - 1], ws[|ws| - 1])
  {
    hide Split, Render, Components;
    RenderedPathReadsBack(h.resolve(ws[|ws| - 1]));
  }

  /** No argument of an `ls` path form but the fixed "-la" can be read as an option. */
  lemma PathIsNoOption(h: Host, command: string)
    requires BlankIsSpace(h) && Normalize(h, command) !in ALLOWED && ArgvFor(h, command).Exec?
    ensures var argv := ArgvFor(h, command).argv;
            && |argv| > 0 && "/" <= argv[|argv| - 1]
            && (argv[..|argv| - 1] == ["ls"] || argv[..|argv| - 1] == ["ls", "-la"])
  {
    LsFormIsExact(h, command);
    var ws := Words(h, command);
    var argv := ArgvFor(h, command).argv;
    assert argv[..|argv| - 1] == ws[..|ws| - 1];
  }
}
