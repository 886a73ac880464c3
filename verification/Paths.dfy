/**
 Path rules: the overlap test the scheduler uses to keep concurrent tasks apart
 (orchestrator/core/scheduler.py) and the allow/deny check a candidate's changed paths must
 pass (orchestrator/core/worktree.py).

 Both are string-prefix tests, written independently.  The main result is that they fit:
 two tasks the first keeps apart can have no changed path the second accepts for both.
 */
module Paths {
  import opened Wrappers

  /** `s.replace("\\", "/")`. */
  function Slashed(s: string): (r: string)
    ensures |r| == |s| && forall i | 0 <= i < |s| :: r[i] == (if s[i] == '\\' then '/' else s[i])
  {
    seq(|s|, i requires 0 <= i < |s| => if s[i] == '\\' then '/' else s[i])
  }

  /** `s.rstrip("/")`: the longest prefix that does not end in a slash. */
  function RStrip(s: string): (r: string)
    ensures r <= s && (r == "" || r[|r| - 1] != '/')
    ensures forall i | |r| <= i < |s| :: s[i] == '/'
  {
    if s != "" && s[|s| - 1] == '/' then RStrip(s[..|s| - 1]) else s
  }

  function LStrip(s: string): string {
    if s != "" && s[0] == '/' then LStrip(s[1..]) else s
  }

  /** Text before the first slash, and what follows it. */
  function FirstPart(s: string): (r: string)
    ensures r <= s && '/' !in r
    ensures |r| < |s| ==> s[|r|] == '/'
  {
    if s == "" || s[0] == '/' then "" else [s[0]] + FirstPart(s[1..])
  }

  /** `s.split("/")`. */
  function Split(s: string): (parts: seq<string>)
    ensures parts != [] && forall p | p in parts :: '/' !in p
    decreases |s|
  {
    var first := FirstPart(s);
    if |first| == |s| then [s] else [first] + Split(s[|first| + 1..])
  }

  // ---------------------------------------------------------------------------------------
  // check_path_overlap
  // ---------------------------------------------------------------------------------------

  /** What the overlap test compares: slashes unified, trailing ones made into exactly one. */
  function DirKey(path: string): string { RStrip(Slashed(path)) + "/" }

  predicate Overlap(a: string, b: string) { DirKey(b) <= DirKey(a) || DirKey(a) <= DirKey(b) }

  predicate PathsOverlap(pathsA: seq<string>, pathsB: seq<string>) {
    exists i, j :: 0 <= i < |pathsA| && 0 <= j < |pathsB| && Overlap(pathsA[i], pathsB[j])
  }

  method CheckPathOverlap(pathsA: seq<string>, pathsB: seq<string>) returns (r: bool)
    ensures r <==> PathsOverlap(pathsA, pathsB)
  {
    for i := 0 to |pathsA|
      invariant forall k, j | 0 <= k < i && 0 <= j < |pathsB| :: !Overlap(pathsA[k], pathsB[j])
    {
      var a := RStrip(Slashed(pathsA[i])) + "/";
      for j := 0 to |pathsB|
        invariant forall k | 0 <= k < j :: !Overlap(pathsA[i], pathsB[k])
      {
        var b := RStrip(Slashed(pathsB[j])) + "/";
        if b <= a || a <= b {
          assert Overlap(pathsA[i], pathsB[j]);
          return true;
        }
      }
    }
    return false;
  }

  lemma OverlapSymmetric(pathsA: seq<string>, pathsB: seq<string>)
    ensures PathsOverlap(pathsA, pathsB) <==> PathsOverlap(pathsB, pathsA)
  {
    if i, j :| 0 <= i < |pathsA| && 0 <= j < |pathsB| && Overlap(pathsA[i], pathsB[j]) {
      assert Overlap(pathsB[j], pathsA[i]);
    }
    if i, j :| 0 <= i < |pathsB| && 0 <= j < |pathsA| && Overlap(pathsB[i], pathsA[j]) {
      assert Overlap(pathsA[j], pathsB[i]);
    }
  }

  // ---------------------------------------------------------------------------------------
  // Overlap is prefix of components
  // ---------------------------------------------------------------------------------------

  /** Every part followed by a slash. */
  function Terminated(parts: seq<string>): string {
    if parts == [] then "" else parts[0] + "/" + Terminated(parts[1..])
  }

  lemma {:induction false} SplitTerminated(s: string)
    ensures Terminated(Split(s)) == s + "/"
    decreases |s|
  {
    var first := FirstPart(s);
    if |first| == |s| {
      assert [s][1..] == [];
      assert Terminated([]) == "";
      assert Terminated([s]) == s + "/" + "";
    } else {
      var rest := s[|first| + 1..];
      SplitTerminated(rest);
      assert s == first + "/" + rest;
      assert ([first] + Split(rest))[1..] == Split(rest);
    }
  }

  lemma {:induction false} FirstPartOf(part: string, rest: string)
    requires '/' !in part && (rest == "" || rest[0] == '/')
    ensures FirstPart(part + rest) == part
  {
    if part != "" {
      assert (part + rest)[1..] == part[1..] + rest;
      FirstPartOf(part[1..], rest);
    } else {
      assert part + rest == rest;
    }
  }

  lemma {:induction false} FirstPartOfPrefix(s: string, t: string)
    requires s <= t && |FirstPart(s)| < |s|
    ensures FirstPart(t) == FirstPart(s)
  {
    if s[0] != '/' { FirstPartOfPrefix(s[1..], t[1..]); }
  }

  lemma ConsPrefix(a: seq<string>, b: seq<string>)
    requires a != [] && b != [] && a[0] == b[0]
    ensures a <= b <==> a[1..] <= b[1..]
  {
    assert a == [a[0]] + a[1..] && b == [b[0]] + b[1..];
  }

  /** Slash-free parts can be read back off the terminated text, so prefixes agree. */
  lemma {:induction false} TerminatedPrefix(a: seq<string>, b: seq<string>)
    requires forall p | p in a + b :: '/' !in p
    ensures Terminated(a) <= Terminated(b) <==> a <= b
    decreases |a|
  {
    if a != [] && b != [] {
      var ta, tb := Terminated(a[1..]), Terminated(b[1..]);
      assert Terminated(a) == a[0] + ("/" + ta) && Terminated(b) == b[0] + ("/" + tb);
      assert a[0] in a + b && b[0] in a + b;
      FirstPartOf(a[0], "/" + ta);
      FirstPartOf(b[0], "/" + tb);
      if Terminated(a) <= Terminated(b) { FirstPartOfPrefix(Terminated(a), Terminated(b)); }
      if a[0] == b[0] {
        assert ta == Terminated(a)[|a[0]| + 1..] && tb == Terminated(b)[|b[0]| + 1..];
        assert forall p | p in a[1..] + b[1..] :: p in a + b;
        TerminatedPrefix(a[1..], b[1..]);
        ConsPrefix(a, b);
      }
    }
  }

  /** Components as the overlap test sees them. */
  function Parts(path: string): seq<string> { Split(RStrip(Slashed(path))) }

  /** For every pair of path texts: overlap is one component list being a prefix of the other. */
  lemma OverlapIsComponentPrefix(a: string, b: string)
    ensures Overlap(a, b) <==> Parts(a) <= Parts(b) || Parts(b) <= Parts(a)
  {
    SplitTerminated(RStrip(Slashed(a)));
    SplitTerminated(RStrip(Slashed(b)));
    TerminatedPrefix(Parts(a), Parts(b));
    TerminatedPrefix(Parts(b), Parts(a));
  }

  /** The components that matter to a file system: empty ones and "." name nothing. */
  function Denoted(parts: seq<string>): seq<string> {
    if parts == [] then []
    else (if NamesSomething(parts[0]) then [parts[0]] else []) + Denoted(parts[1..])
  }

  /** One names a directory above, or the same entry as, the other. */
  predicate SameTree(a: string, b: string) {
    Denoted(Parts(a)) <= Denoted(Parts(b)) || Denoted(Parts(b)) <= Denoted(Parts(a))
  }

  predicate NamesSomething(part: string) { part != "" && part != "." }

  predicate Canonical(path: string) { forall i | 0 <= i < |Parts(path)| :: NamesSomething(Parts(path)[i]) }

  lemma {:induction false} DenotedCanonical(parts: seq<string>)
    requires forall i | 0 <= i < |parts| :: NamesSomething(parts[i])
    ensures Denoted(parts) == parts
  {
    if parts != [] { DenotedCanonical(parts[1..]); }
  }

  lemma {:induction false} DenotedPrefix(a: seq<string>, b: seq<string>)
    requires a <= b
    ensures Denoted(a) <= Denoted(b)
  {
    if a != [] { DenotedPrefix(a[1..], b[1..]); }
  }

  /** Overlap never cries wolf, and on canonical paths it misses nothing either. */
  lemma OverlapAgainstFileTree(a: string, b: string)
    ensures Overlap(a, b) ==> SameTree(a, b)
    ensures Canonical(a) && Canonical(b) ==> (Overlap(a, b) <==> SameTree(a, b))
  {
    OverlapIsComponentPrefix(a, b);
    if Parts(a) <= Parts(b) { DenotedPrefix(Parts(a), Parts(b)); }
    if Parts(b) <= Parts(a) { DenotedPrefix(Parts(b), Parts(a)); }
    if Canonical(a) && Canonical(b) { DenotedCanonical(Parts(a)); DenotedCanonical(Parts(b)); }
  }

  /** Parts joined by slashes. */
  function Joined(parts: seq<string>): string
    requires parts != []
  {
    if |parts| == 1 then parts[0] else parts[0] + "/" + Joined(parts[1..])
  }

  lemma {:induction false} SplitJoined(parts: seq<string>)
    requires parts != [] && forall p | p in parts :: '/' !in p
    ensures Split(Joined(parts)) == parts
  {
    assert parts[0] in parts;
    if |parts| == 1 {
      SplitOne(parts[0]);
    } else {
      assert forall p | p in parts[1..] :: p in parts;
      SplitJoined(parts[1..]);
      SplitMore(parts[0], Joined(parts[1..]));
    }
  }

  predicate NoBackslash(parts: seq<string>) { forall p | p in parts :: '\\' !in p }

  lemma {:induction false} JoinedPlain(parts: seq<string>)
    requires parts != [] && NoBackslash(parts)
    ensures '\\' !in Joined(parts) && |Joined(parts)| >= |parts[|parts| - 1]|
    ensures var last := parts[|parts| - 1]; last != "" ==> Joined(parts)[|Joined(parts)| - 1] == last[|last| - 1]
  {
    assert parts[0] in parts;
    if |parts| > 1 {
      assert forall p | p in parts[1..] :: p in parts;
      JoinedPlain(parts[1..]);
    }
  }

  /** A text whose components are these. */
  lemma PartsOfJoined(parts: seq<string>)
    requires parts != [] && NoBackslash(parts) && (forall p | p in parts :: '/' !in p) && parts[|parts| - 1] != ""
    ensures Parts(Joined(parts)) == parts
  {
    SplitJoined(parts);
    JoinedPlain(parts);
    assert parts[|parts| - 1] in parts;
    assert Slashed(Joined(parts)) == Joined(parts);
  }

  lemma {:induction false} FirstPartPlain(s: string)
    requires '\\' !in s
    ensures '\\' !in FirstPart(s)
  {
    if s != "" && s[0] != '/' { FirstPartPlain(s[1..]); }
  }

  lemma {:induction false} SplitPlain(s: string)
    requires '\\' !in s
    ensures NoBackslash(Split(s))
    decreases |s|
  {
    var first := FirstPart(s);
    FirstPartPlain(s);
    if |first| < |s| { SplitPlain(s[|first| + 1..]); }
  }

  lemma PartsPlain(path: string)
    ensures NoBackslash(Parts(path)) && Parts(path) != [] && forall p | p in Parts(path) :: '/' !in p
  {
    assert '\\' !in Slashed(path);
    SplitPlain(RStrip(Slashed(path)));
  }

  lemma {:induction false} DenotedComesFrom(parts: seq<string>)
    ensures forall p | p in Denoted(parts) :: p in parts && NamesSomething(p)
  {
    if parts != [] { DenotedComesFrom(parts[1..]); }
  }

  lemma {:induction false} DenotedConcat(a: seq<string>, b: seq<string>)
    ensures Denoted(a + b) == Denoted(a) + Denoted(b)
  {
    if a == [] {
      assert a + b == b;
    } else {
      assert (a + b)[1..] == a[1..] + b;
      DenotedConcat(a[1..], b);
    }
  }

  function Repeat(part: string, n: nat): seq<string> { seq(n, _ => part) }

  /** For a spelling with an empty or a dot component: a canonical path below it that the test misses. */
  lemma MissedPartner(a: string)
    requires !Canonical(a)
    ensures exists b :: Canonical(b) && SameTree(a, b) && !Overlap(a, b)
  {
    PartsPlain(a);
    DenotedComesFrom(Parts(a));
    var parts := Denoted(Parts(a)) + Repeat("x", |Parts(a)| + 1);
    var b := Joined(parts);
    forall p | p in parts ensures '/' !in p && '\\' !in p && NamesSomething(p) {
      if p !in Denoted(Parts(a)) { assert p in Repeat("x", |Parts(a)| + 1) && p == "x"; }
    }
    PartsOfJoined(parts);
    assert Canonical(b) by {
      forall i | 0 <= i < |Parts(b)| ensures NamesSomething(Parts(b)[i]) { assert parts[i] in parts; }
    }
    DenotedCanonical(Parts(b));
    OverlapIsComponentPrefix(a, b);
    var i :| 0 <= i < |Parts(a)| && !NamesSomething(Parts(a)[i]);
    assert parts[i] in parts;
    assert Canonical(b) && SameTree(a, b) && !Overlap(a, b);
  }

  /** A spelling is safe against every canonical one exactly when it is canonical itself. */
  lemma CanonicalExactly(a: string)
    ensures Canonical(a) <==> forall b | Canonical(b) :: Overlap(a, b) <==> SameTree(a, b)
  {
    if Canonical(a) {
      forall b | Canonical(b) ensures Overlap(a, b) <==> SameTree(a, b) { OverlapAgainstFileTree(a, b); }
    } else {
      MissedPartner(a);
    }
  }

  // ---------------------------------------------------------------------------------------
  // sanitize_relative_path and validate_paths_against_policy
  // ---------------------------------------------------------------------------------------

  datatype PathError = AbsoluteOrUnc | NullByte | Traversal | Absolute | Prohibited | NotAllowed

  function Sanitize(path: string): (r: Result<string, PathError>)
    ensures r.Ok? <==> && (path == "" || (path[0] != '/' && path[0] != '\\')) && !(|path| > 1 && path[1] == ':')
                       && '\0' !in path && ".." !in Split(Slashed(path))
    ensures r.Ok? ==> r.value == Slashed(path) && (r.value == "" || r.value[0] != '/') && ".." !in Split(r.value)
  {
    var normalized := Slashed(path);
    if "//" <= path || "\\\\" <= path || (|path| > 1 && path[1] == ':') then Err(AbsoluteOrUnc)
    else if '\0' in path then Err(NullByte)
    else if ".." in Split(normalized) then Err(Traversal)
    else if "/" <= normalized then Err(Absolute)
    else Ok(LStrip(normalized))
  }

  /** A rule covers itself and everything below it. */
  predicate Covers(rule: string, path: string) { path == rule || RStrip(rule) + "/" <= path }

  predicate AllSane(paths: seq<string>) { forall i | 0 <= i < |paths| :: Sanitize(paths[i]).Ok? }

  predicate SomeCovers(rules: seq<string>, path: string)
    requires AllSane(rules)
  {
    exists i :: 0 <= i < |rules| && Covers(Sanitize(rules[i]).value, path)
  }

  /** Deny first; then, if there is an allow list at all, the path must be under it. */
  predicate Accepted(path: string, allowed: seq<string>, prohibited: seq<string>)
    requires AllSane(allowed) && AllSane(prohibited)
  {
    && Sanitize(path).Ok?
    && !SomeCovers(prohibited, Sanitize(path).value)
    && (allowed != [] ==> SomeCovers(allowed, Sanitize(path).value))
  }

  predicate PolicyPasses(changed: seq<string>, allowed: seq<string>, prohibited: seq<string>) {
    && AllSane(allowed) && AllSane(prohibited)
    && forall i | 0 <= i < |changed| :: Accepted(changed[i], allowed, prohibited)
  }

  method SanitizeAll(paths: seq<string>) returns (r: Result<seq<string>, PathError>)
    ensures r.Ok? <==> AllSane(paths)
    ensures r.Err? ==> exists i :: 0 <= i < |paths| && Sanitize(paths[i]) == Err(r.error)
    ensures r.Ok? ==> |r.value| == |paths| && forall i | 0 <= i < |paths| :: r.value[i] == Sanitize(paths[i]).value
  {
    var clean: seq<string> := [];
    for i := 0 to |paths|
      invariant |clean| == i
      invariant forall k | 0 <= k < i :: Sanitize(paths[k]) == Ok(clean[k])
    {
      var s := Sanitize(paths[i]);
      if s.Err? { return Err(s.error); }
      clean := clean + [s.value];
    }
    return Ok(clean);
  }

  method CoveredByAny(rules: seq<string>, path: string) returns (covered: bool)
    ensures covered <==> exists k :: 0 <= k < |rules| && Covers(rules[k], path)
  {
    covered := false;
    for j := 0 to |rules|
      invariant !covered && forall k | 0 <= k < j :: !Covers(rules[k], path)
    {
      if path == rules[j] || RStrip(rules[j]) + "/" <= path {
        assert Covers(rules[j], path);
        covered := true;
        break;
      }
    }
  }

  method ValidatePathsAgainstPolicy(changed: seq<string>, allowed: seq<string>, prohibited: seq<string>)
      returns (r: Option<PathError>)
    ensures r.None? <==> PolicyPasses(changed, allowed, prohibited)
    ensures r == Some(Prohibited) ==>
              && AllSane(allowed) && AllSane(prohibited)
              && exists i :: && 0 <= i < |changed| && PolicyPasses(changed[..i], allowed, prohibited)
                             && Sanitize(changed[i]).Ok? && SomeCovers(prohibited, Sanitize(changed[i]).value)
    ensures r == Some(NotAllowed) ==>
              && AllSane(allowed) && AllSane(prohibited) && allowed != []
              && exists i :: && 0 <= i < |changed| && PolicyPasses(changed[..i], allowed, prohibited)
                             && Sanitize(changed[i]).Ok? && !SomeCovers(prohibited, Sanitize(changed[i]).value)
                             && !SomeCovers(allowed, Sanitize(changed[i]).value)
  {
    var denied := SanitizeAll(prohibited);
    if denied.Err? { return Some(denied.error); }
    var permitted := SanitizeAll(allowed);
    if permitted.Err? { return Some(permitted.error); }
    for i := 0 to |changed|
      invariant forall k | 0 <= k < i :: Accepted(changed[k], allowed, prohibited)
    {
      var clean := Sanitize(changed[i]);
      if clean.Err? { return Some(clean.error); }
      var deny := CoveredByAny(denied.value, clean.value);
      if deny { return Some(Prohibited); }
      if |permitted.value| > 0 {
        var allow := CoveredByAny(permitted.value, clean.value);
        if !allow { return Some(NotAllowed); }
      }
    }
    return None;
  }

  // ---------------------------------------------------------------------------------------
  // The same, character by character
  // ---------------------------------------------------------------------------------------

  predicate IsSlash(c: char) { c == '/' || c == '\\' }

  /** The first `n` characters are the text without its trailing slashes. */
  ghost predicate StripsTo(s: string, n: int) {
    && 0 <= n <= |s| && (n == 0 || !IsSlash(s[n - 1]))
    && forall i | n <= i < |s| :: IsSlash(s[i])
  }

  ghost predicate SameChar(a: char, b: char) { a == b || (IsSlash(a) && IsSlash(b)) }

  /** The first `n` characters of both texts are the same, whichever way their slashes lean. */
  ghost predicate SameUpTo(a: string, b: string, n: int) {
    n <= |a| && n <= |b| && forall i | 0 <= i < n :: SameChar(a[i], b[i])
  }

  /** A component of `s`: a stretch without slashes, between slashes or the ends of the text. */
  ghost predicate ComponentAt(s: string, part: string, i: int) {
    && 0 <= i <= |s| - |part| && s[i..i + |part|] == part && '/' !in part
    && (i == 0 || s[i - 1] == '/') && (i + |part| == |s| || s[i + |part|] == '/')
  }

  lemma {:induction false} SplitExactly(s: string, part: string)
    ensures part in Split(s) <==> exists i :: ComponentAt(s, part, i)
    decreases |s|
  {
    var first := FirstPart(s);
    if |first| == |s| {
      assert s[0..|s|] == s;
      if part == s { assert ComponentAt(s, part, 0); }
      if i :| ComponentAt(s, part, i) { WholeComponent(s, part, i); }
    } else {
      var rest := s[|first| + 1..];
      assert s == first + ['/'] + rest;
      SplitExactly(rest, part);
      if part == first { assert ComponentAt(s, part, 0); }
      if i :| ComponentAt(rest, part, i) { LaterComponent(first, rest, part, i); }
      if i :| ComponentAt(s, part, i) { FirstOrLater(first, rest, part, i); }
    }
  }

  lemma WholeComponent(s: string, part: string, i: int)
    requires '/' !in s && ComponentAt(s, part, i)
    ensures part == s
  {
  }

  lemma LaterComponent(first: string, rest: string, part: string, i: int)
    requires ComponentAt(rest, part, i)
    ensures ComponentAt(first + ['/'] + rest, part, i + |first| + 1)
  {
    var s, n := first + ['/'] + rest, |first| + 1;
    assert s[i + n..i + n + |part|] == rest[i..i + |part|];
    if i > 0 { assert s[i + n - 1] == rest[i - 1]; }
    if i + |part| < |rest| { assert s[i + n + |part|] == rest[i + |part|]; }
  }

  lemma FirstOrLater(first: string, rest: string, part: string, i: int)
    requires '/' !in first && ComponentAt(first + ['/'] + rest, part, i)
    ensures part == first || exists j :: ComponentAt(rest, part, j)
  {
    var s, n := first + ['/'] + rest, |first| + 1;
    assert s[|first|] == '/' && forall k | 0 <= k < |first| :: s[k] == first[k] && s[k] != '/';
    assert forall k | i <= k < i + |part| :: s[k] == part[k - i] && s[k] != '/';
    if i == 0 {
      assert s[0..|first|] == first;
    } else {
      assert i >= n;
      assert rest[i - n..i - n + |part|] == s[i..i + |part|];
      if i > n { assert s[i - 1] == rest[i - n - 1]; }
      if i + |part| < |s| { assert s[i + |part|] == rest[i - n + |part|]; }
      assert ComponentAt(rest, part, i - n);
    }
  }

  /** A text that leads upwards: two dots between slashes or the ends of the text. */
  ghost predicate GoesUp(path: string) {
    exists i :: 0 <= i < |path| - 1 && TwoDotsAt(path, i)
  }

  ghost predicate TwoDotsAt(path: string, i: int)
    requires 0 <= i < |path| - 1
  {
    && path[i] == '.' && path[i + 1] == '.'
    && (i == 0 || IsSlash(path[i - 1])) && (i == |path| - 2 || IsSlash(path[i + 2]))
  }

  lemma TwoDotsExactly(path: string, i: int)
    ensures ComponentAt(Slashed(path), "..", i) <==> 0 <= i < |path| - 1 && TwoDotsAt(path, i)
  {
    var s := Slashed(path);
    if 0 <= i < |path| - 1 {
      assert s[i..i + 2] == [s[i], s[i + 1]];
      assert s[i..i + 2] == ".." <==> s[i] == '.' && s[i + 1] == '.' by {
        if s[i..i + 2] == ".." { assert s[i..i + 2][0] == '.' && s[i..i + 2][1] == '.'; }
      }
    }
  }

  lemma GoesUpExactly(path: string)
    ensures ".." in Split(Slashed(path)) <==> GoesUp(path)
  {
    SplitExactly(Slashed(path), "..");
    if i :| ComponentAt(Slashed(path), "..", i) { TwoDotsExactly(path, i); }
    if i :| 0 <= i < |path| - 1 && TwoDotsAt(path, i) { TwoDotsExactly(path, i); }
  }

  /** What the sanitiser lets through: relative, no drive letter, no NUL, never upwards. */
  ghost predicate SafeText(path: string) {
    && (path == "" || !IsSlash(path[0])) && (|path| > 1 ==> path[1] != ':')
    && (forall i | 0 <= i < |path| :: path[i] != '\0') && !GoesUp(path)
  }

  lemma SanitizeExactly(path: string)
    ensures Sanitize(path).Ok? <==> SafeText(path)
    ensures Sanitize(path).Ok? ==>
              |Sanitize(path).value| == |path| && SameUpTo(Sanitize(path).value, path, |path|)
              && forall i | 0 <= i < |path| :: Sanitize(path).value[i] != '\\'
  {
    GoesUpExactly(path);
  }

  /** The rule is the path, or the path goes on below it after a slash. */
  ghost predicate Under(rule: string, path: string) {
    || (|rule| == |path| && SameUpTo(rule, path, |rule|))
    || (exists n :: StripsTo(rule, n) && n < |path| && SameUpTo(rule, path, n) && IsSlash(path[n]))
  }

  lemma RStripExactly(s: string)
    ensures StripsTo(s, |RStrip(Slashed(s))|)
    ensures forall n :: StripsTo(s, n) ==> n == |RStrip(Slashed(s))|
  {
    var m := |RStrip(Slashed(s))|;
    forall n | StripsTo(s, n) ensures n == m { StripsOnce(s, n, m); }
  }

  lemma StripsOnce(s: string, n: int, m: int)
    requires StripsTo(s, n) && StripsTo(s, m)
    ensures n == m
  {
  }

  lemma SlashedAgrees(a: string, b: string, n: nat)
    requires n <= |a| && n <= |b|
    ensures Slashed(a)[..n] == Slashed(b)[..n] <==> SameUpTo(a, b, n)
  {
    if Slashed(a)[..n] == Slashed(b)[..n] {
      forall i | 0 <= i < n ensures SameChar(a[i], b[i]) {
        assert Slashed(a)[..n][i] == Slashed(b)[..n][i];
      }
    }
  }

  /** Going on after a slash, said of the unified texts. */
  lemma GoesOnExactly(rule: string, path: string)
    ensures RStrip(Slashed(rule)) + "/" <= Slashed(path) <==>
              exists n :: StripsTo(rule, n) && n < |path| && SameUpTo(rule, path, n) && IsSlash(path[n])
  {
    var stripped, text := RStrip(Slashed(rule)), Slashed(path);
    var m := |stripped|;
    RStripExactly(rule);
    if m < |path| {
      SlashedAgrees(rule, path, m);
      assert stripped == Slashed(rule)[..m];
      assert stripped + "/" <= text <==> stripped == text[..m] && text[m] == '/' by {
        if stripped + "/" <= text { assert (stripped + "/")[..m] == stripped && (stripped + "/")[m] == '/'; }
        if stripped == text[..m] && text[m] == '/' { assert text[..m + 1] == stripped + "/"; }
      }
    }
  }

  lemma CoversExactly(rule: string, path: string)
    requires SafeText(rule) && SafeText(path)
    ensures Sanitize(rule).Ok? && Sanitize(path).Ok?
    ensures Covers(Sanitize(rule).value, Sanitize(path).value) <==> Under(rule, path)
  {
    SanitizeExactly(rule);
    SanitizeExactly(path);
    GoesOnExactly(rule, path);
    if |rule| == |path| {
      SlashedAgrees(rule, path, |rule|);
      assert Slashed(rule)[..|rule|] == Slashed(rule) && Slashed(path)[..|rule|] == Slashed(path);
    }
  }

  /** The path check in plain terms: every text safe, none under a denied rule, each under an allowed one if any. */
  lemma PolicyExactly(changed: seq<string>, allowed: seq<string>, prohibited: seq<string>)
    ensures PolicyPasses(changed, allowed, prohibited) <==>
              && (forall j | 0 <= j < |allowed| :: SafeText(allowed[j]))
              && (forall j | 0 <= j < |prohibited| :: SafeText(prohibited[j]))
              && forall i | 0 <= i < |changed| ::
                   && SafeText(changed[i]) && (forall j | 0 <= j < |prohibited| :: !Under(prohibited[j], changed[i]))
                   && (allowed == [] || exists j :: 0 <= j < |allowed| && Under(allowed[j], changed[i]))
  {
    forall j | 0 <= j < |allowed| ensures Sanitize(allowed[j]).Ok? <==> SafeText(allowed[j]) {
      SanitizeExactly(allowed[j]);
    }
    forall j | 0 <= j < |prohibited| ensures Sanitize(prohibited[j]).Ok? <==> SafeText(prohibited[j]) {
      SanitizeExactly(prohibited[j]);
    }
    assert AllSane(allowed) <==> forall j | 0 <= j < |allowed| :: SafeText(allowed[j]);
    assert AllSane(prohibited) <==> forall j | 0 <= j < |prohibited| :: SafeText(prohibited[j]);
    if AllSane(allowed) && AllSane(prohibited) {
      forall i | 0 <= i < |changed|
        ensures Accepted(changed[i], allowed, prohibited) <==>
                  && SafeText(changed[i]) && (forall j | 0 <= j < |prohibited| :: !Under(prohibited[j], changed[i]))
                  && (allowed == [] || exists j :: 0 <= j < |allowed| && Under(allowed[j], changed[i]))
      {
        AcceptedExactly(changed[i], allowed, prohibited);
      }
    }
  }

  lemma SomeCoversExactly(rules: seq<string>, path: string)
    requires AllSane(rules) && SafeText(path)
    ensures Sanitize(path).Ok?
    ensures SomeCovers(rules, Sanitize(path).value) <==> exists j :: 0 <= j < |rules| && Under(rules[j], path)
  {
    SanitizeExactly(path);
    forall j | 0 <= j < |rules|
      ensures Covers(Sanitize(rules[j]).value, Sanitize(path).value) <==> Under(rules[j], path)
    {
      SanitizeExactly(rules[j]);
      CoversExactly(rules[j], path);
    }
  }

  lemma AcceptedExactly(path: string, allowed: seq<string>, prohibited: seq<string>)
    requires AllSane(allowed) && AllSane(prohibited)
    ensures Accepted(path, allowed, prohibited) <==>
              && SafeText(path) && (forall j | 0 <= j < |prohibited| :: !Under(prohibited[j], path))
              && (allowed == [] || exists j :: 0 <= j < |allowed| && Under(allowed[j], path))
  {
    SanitizeExactly(path);
    if SafeText(path) {
      SomeCoversExactly(allowed, path);
      SomeCoversExactly(prohibited, path);
    }
  }

  /** A rule covers the path it names: allowed if it is an allow rule, refused if it is a deny rule. */
  lemma RuleCoversItself(rule: string, allowed: seq<string>, prohibited: seq<string>)
    requires SafeText(rule)
    ensures PolicyPasses([rule], [rule], [])
    ensures rule in prohibited ==> !PolicyPasses([rule], allowed, prohibited)
  {
    assert Under(rule, rule);
    PolicyExactly([rule], [rule], []);
    assert [rule][0] == rule;
    PolicyExactly([rule], allowed, prohibited);
  }

  /** The overlap test, character by character: the shorter stripped text begins the longer, up to a slash. */
  lemma OverlapExactly(a: string, b: string)
    ensures Overlap(a, b) <==> exists n, m :: StripsTo(a, n) && StripsTo(b, m) && Meet(a, n, b, m)
  {
    var n, m := |RStrip(Slashed(a))|, |RStrip(Slashed(b))|;
    RStripExactly(a);
    RStripExactly(b);
    KeyExactly(a, n, b, m);
    KeyExactly(b, m, a, n);
    assert SameUpTo(a, b, n) <==> SameUpTo(b, a, n);
  }

  ghost predicate Meet(a: string, n: int, b: string, m: int)
    requires 0 <= n <= |a| && 0 <= m <= |b|
  {
    || (n <= m && SameUpTo(a, b, n) && (n < m ==> IsSlash(b[n])))
    || (m <= n && SameUpTo(b, a, m) && (m < n ==> IsSlash(a[m])))
  }

  lemma KeyExactly(a: string, n: nat, b: string, m: nat)
    requires n == |RStrip(Slashed(a))| && m == |RStrip(Slashed(b))|
    ensures DirKey(a) <= DirKey(b) <==> n <= m && SameUpTo(a, b, n) && (n < m ==> IsSlash(b[n]))
  {
    var x, y := RStrip(Slashed(a)), RStrip(Slashed(b));
    assert x == Slashed(a)[..n] && y == Slashed(b)[..m];
    KeyPrefix(x, y);
    if n <= m {
      SlashedAgrees(a, b, n);
      assert y[..n] == Slashed(b)[..n];
    }
  }

  lemma KeyPrefix(x: string, y: string)
    ensures x + "/" <= y + "/" <==> x <= y && (|x| < |y| ==> y[|x|] == '/')
  {
    var n := |x|;
    if n <= |y| {
      assert (y + "/")[..n + 1] == y[..n] + [(y + "/")[n]];
      assert (x + "/")[..n] == x && (x + "/")[n] == '/';
      assert (y + "/")[..n] == y[..n];
    }
  }

  // ---------------------------------------------------------------------------------------
  // The two tests fit together
  // ---------------------------------------------------------------------------------------

  /** A covering rule's directory key is a prefix of the path, slash added. */
  lemma CoversGivesKey(rule: string, path: string)
    requires Sanitize(rule).Ok? && Covers(Sanitize(rule).value, path)
    ensures DirKey(rule) <= path + "/"
  {
  }

  lemma PrefixesOfOneText(a: string, b: string, text: string)
    requires a <= text && b <= text
    ensures a <= b || b <= a
  {
  }

  lemma CommonPathMeansOverlap(ruleA: string, ruleB: string, path: string)
    requires Sanitize(ruleA).Ok? && Sanitize(ruleB).Ok?
    requires Covers(Sanitize(ruleA).value, path) && Covers(Sanitize(ruleB).value, path)
    ensures Overlap(ruleA, ruleB)
  {
    CoversGivesKey(ruleA, path);
    CoversGivesKey(ruleB, path);
    PrefixesOfOneText(DirKey(ruleA), DirKey(ruleB), path + "/");
  }

  /** Tasks whose allow lists do not overlap have no changed path both policies accept. */
  lemma DisjointWriteSets(path: string, allowedA: seq<string>, prohibitedA: seq<string>,
                          allowedB: seq<string>, prohibitedB: seq<string>)
    requires allowedA != [] && allowedB != [] && !PathsOverlap(allowedA, allowedB)
    ensures !(PolicyPasses([path], allowedA, prohibitedA) && PolicyPasses([path], allowedB, prohibitedB))
  {
    if PolicyPasses([path], allowedA, prohibitedA) && PolicyPasses([path], allowedB, prohibitedB) {
      assert Accepted([path][0], allowedA, prohibitedA) && Accepted([path][0], allowedB, prohibitedB);
      var clean := Sanitize(path).value;
      var i :| 0 <= i < |allowedA| && Covers(Sanitize(allowedA[i]).value, clean);
      var j :| 0 <= j < |allowedB| && Covers(Sanitize(allowedB[j]).value, clean);
      CommonPathMeansOverlap(allowedA[i], allowedB[j], clean);
      assert false;
    }
  }

  // ---------------------------------------------------------------------------------------
  // From path texts to files
  // ---------------------------------------------------------------------------------------

  /** The file a changed path names, as components from the root of the worktree. */
  function FileOf(path: string): seq<string> { Denoted(Split(Slashed(path))) }

  /** What a rule covers lies, component by component, under the rule. */
  lemma CoveredLiesUnder(rule: string, path: string)
    requires Sanitize(rule).Ok? && Covers(Sanitize(rule).value, path)
    ensures Parts(rule) <= Split(path) && Denoted(Parts(rule)) <= Denoted(Split(path))
  {
    CoversGivesKey(rule, path);
    SplitTerminated(RStrip(Slashed(rule)));
    SplitTerminated(path);
    TerminatedPrefix(Parts(rule), Split(path));
    DenotedPrefix(Parts(rule), Split(path));
  }

  predicate AllCanonical(paths: seq<string>) { forall i | 0 <= i < |paths| :: Canonical(paths[i]) }

  lemma AcceptedIsCovered(path: string, allowed: seq<string>, prohibited: seq<string>)
    requires allowed != [] && PolicyPasses([path], allowed, prohibited)
    ensures exists i :: && 0 <= i < |allowed| && Sanitize(allowed[i]).Ok?
                        && Covers(Sanitize(allowed[i]).value, Slashed(path))
  {
    assert Accepted([path][0], allowed, prohibited);
  }

  /** A text below a rule, given by further components. */
  function Below(rule: string, rest: seq<string>): string
    requires rest != []
  {
    RStrip(Slashed(rule)) + "/" + Joined(rest)
  }

  /** A component a sane path can have. */
  predicate PlainPart(part: string) { '/' !in part && '\\' !in part && '\0' !in part && part != ".." }

  predicate PlainParts(rest: seq<string>) { forall p | p in rest :: PlainPart(p) }

  lemma {:induction false} JoinedChars(parts: seq<string>, c: char)
    requires parts != [] && c != '/' && forall p | p in parts :: c !in p
    ensures c !in Joined(parts)
  {
    assert parts[0] in parts;
    if |parts| > 1 {
      assert forall p | p in parts[1..] :: p in parts;
      JoinedChars(parts[1..], c);
    }
  }

  lemma Regroup(a: string, b: string, c: string)
    ensures a + "/" + b + "/" + c == a + "/" + (b + "/" + c)
  {
  }

  lemma ConsConcat(part: string, a: seq<string>, b: seq<string>)
    ensures [part] + a + b == [part] + (a + b)
  {
  }

  lemma SplitConcatStep(first: string, tail: string, t: string)
    requires '/' !in first && Split(tail + "/" + t) == Split(tail) + Split(t)
    ensures Split(first + "/" + tail + "/" + t) == Split(first + "/" + tail) + Split(t)
  {
    SplitMore(first, tail);
    SplitMore(first, tail + "/" + t);
    Regroup(first, tail, t);
    ConsConcat(first, Split(tail), Split(t));
  }

  lemma CutAtFirst(s: string)
    requires |FirstPart(s)| < |s|
    ensures s == FirstPart(s) + "/" + s[|FirstPart(s)| + 1..]
  {
  }

  lemma {:induction false} SplitConcat(s: string, t: string)
    ensures Split(s + "/" + t) == Split(s) + Split(t)
    decreases |s|
  {
    var first := FirstPart(s);
    if |first| == |s| {
      SplitMore(s, t);
    } else {
      var tail := s[|first| + 1..];
      SplitConcat(tail, t);
      CutAtFirst(s);
      SplitConcatStep(first, tail, t);
    }
  }

  /** Stripping slashes off the end only drops components. */
  lemma StrippedParts(path: string)
    ensures Parts(path) <= Split(Slashed(path))
  {
    var s := Slashed(path);
    SplitTerminated(RStrip(s));
    SplitTerminated(s);
    assert RStrip(s) + "/" <= s + "/";
    TerminatedPrefix(Split(RStrip(s)), Split(s));
  }

  /** Text the character tests of the sanitiser let pass. */
  predicate Stem(s: string) {
    && s != "" && s[0] != '/' && '\\' !in s && '\0' !in s && (|s| > 1 ==> s[1] != ':')
  }

  lemma SlashedStem(rule: string)
    requires Sanitize(rule).Ok? && rule != ""
    ensures Stem(Slashed(rule))
  {
    var s := Slashed(rule);
    assert forall i | 0 <= i < |s| :: s[i] == '\0' ==> rule[i] in rule;
  }

  lemma StrippedStem(s: string)
    requires Stem(s)
    ensures Stem(RStrip(s)) && Slashed(RStrip(s)) == RStrip(s)
  {
    var r := RStrip(s);
    assert forall c | c in r :: c in s;
    assert forall i | 0 <= i < |r| :: r[i] in r;
  }

  /** The stem of a sane, non-empty rule. */
  lemma RuleStem(rule: string)
    requires Sanitize(rule).Ok? && rule != ""
    ensures var stem := RStrip(Slashed(rule)); Stem(stem) && Slashed(stem) == stem && ".." !in Parts(rule)
  {
    SlashedStem(rule);
    StrippedStem(Slashed(rule));
    StrippedParts(rule);
  }

  lemma StemIsSane(stem: string, rest: string)
    requires Stem(stem) && '\\' !in rest && '\0' !in rest && ".." !in Split(stem) && ".." !in Split(rest)
    ensures Sanitize(stem + "/" + rest) == Ok(stem + "/" + rest)
  {
    var path := stem + "/" + rest;
    SplitConcat(stem, rest);
    assert Slashed(path) == path;
  }

  lemma CoversBelow(rule: string, rest: string)
    requires Sanitize(rule).Ok?
    ensures Covers(Sanitize(rule).value, RStrip(Slashed(rule)) + "/" + rest)
  {
  }

  lemma AcceptedAlone(rule: string, path: string)
    requires Sanitize(rule).Ok? && Sanitize(path).Ok? && Covers(Sanitize(rule).value, Sanitize(path).value)
    ensures PolicyPasses([path], [rule], [])
  {
    assert Covers(Sanitize([rule][0]).value, Sanitize(path).value);
  }

  /** The policy of a single rule accepts everything below it. */
  lemma BelowIsAccepted(rule: string, rest: seq<string>)
    requires Sanitize(rule).Ok? && rule != "" && rest != [] && PlainParts(rest)
    ensures PolicyPasses([Below(rule, rest)], [rule], [])
    ensures FileOf(Below(rule, rest)) == Denoted(Parts(rule)) + Denoted(rest)
  {
    RuleStem(rule);
    JoinedChars(rest, '\\');
    JoinedChars(rest, '\0');
    SplitJoined(rest);
    StemIsSane(RStrip(Slashed(rule)), Joined(rest));
    CoversBelow(rule, Joined(rest));
    AcceptedAlone(rule, Below(rule, rest));
    SplitConcat(RStrip(Slashed(rule)), Joined(rest));
    DenotedConcat(Parts(rule), rest);
  }

  lemma {:induction false} SplitChars(s: string, c: char)
    requires c !in s
    ensures forall p | p in Split(s) :: c !in p
    decreases |s|
  {
    var first := FirstPart(s);
    if |first| < |s| { SplitChars(s[|first| + 1..], c); }
  }

  /** Components that lead to a file: each one sane, and naming something. */
  predicate FileParts(parts: seq<string>) { forall p | p in parts :: PlainPart(p) && NamesSomething(p) }

  lemma DenotedPlain(rule: string)
    requires Sanitize(rule).Ok? && rule != ""
    ensures FileParts(Denoted(Parts(rule)))
  {
    DenotedComesFrom(Parts(rule));
    PartsPlain(rule);
    RuleStem(rule);
    SplitChars(RStrip(Slashed(rule)), '\0');
  }

  /** A file below a rule. */
  lemma FileBelow(rule: string, down: seq<string>) returns (path: string)
    requires Sanitize(rule).Ok? && rule != "" && FileParts(down)
    ensures PolicyPasses([path], [rule], []) && FileOf(path) == Denoted(Parts(rule)) + (down + ["x"])
  {
    var rest := down + ["x"];
    assert PlainParts(rest) by { forall p | p in rest ensures PlainPart(p) { if p !in down { assert p == "x"; } } }
    forall i | 0 <= i < |rest| ensures NamesSomething(rest[i]) { if i < |down| { assert down[i] in down; } }
    path := Below(rule, rest);
    BelowIsAccepted(rule, rest);
    DenotedCanonical(rest);
  }

  lemma RestIsPlain(a: seq<string>, b: seq<string>)
    requires a <= b && FileParts(b)
    ensures var down := b[|a|..]; FileParts(down) && a + (down + ["x"]) == b + ([] + ["x"])
  {
    var down := b[|a|..];
    assert forall p | p in down :: p in b;
  }

  /** Two rules that name related trees both accept some file. */
  lemma RelatedRulesShareAFile(ruleA: string, ruleB: string) returns (pathA: string, pathB: string)
    requires Sanitize(ruleA).Ok? && Sanitize(ruleB).Ok? && ruleA != "" && ruleB != ""
    requires Denoted(Parts(ruleA)) <= Denoted(Parts(ruleB))
    ensures PolicyPasses([pathA], [ruleA], []) && PolicyPasses([pathB], [ruleB], [])
    ensures FileOf(pathA) == FileOf(pathB)
  {
    DenotedPlain(ruleB);
    RestIsPlain(Denoted(Parts(ruleA)), Denoted(Parts(ruleB)));
    pathA := FileBelow(ruleA, Denoted(Parts(ruleB))[|Denoted(Parts(ruleA))|..]);
    pathB := FileBelow(ruleB, []);
  }

  /** One rule reaches what the other names; an empty rule covers the root of the worktree and nothing below it. */
  predicate Reaches(rule: string, other: string) {
    Denoted(Parts(rule)) <= Denoted(Parts(other)) && (rule == "" ==> Denoted(Parts(other)) == [])
  }

  lemma EmptyRuleCovers(path: string)
    requires PolicyPasses([path], [""], [])
    ensures FileOf(path) == []
  {
    AcceptedIsCovered(path, [""], []);
    assert RStrip("") + "/" == "/";
    assert Accepted([path][0], [""], []);
    assert Slashed(path) == "";
    assert Split("") == [""];
  }

  lemma EmptyRuleAcceptsRoot()
    ensures PolicyPasses([""], [""], []) && FileOf("") == []
  {
    SplitOne("");
    assert Slashed("") == "";
    AcceptedAlone("", "");
  }

  /** A rule that names the root shares it with the empty rule. */
  lemma RootIsShared(rule: string) returns (path: string)
    requires Sanitize(rule).Ok? && Denoted(Parts(rule)) == []
    ensures PolicyPasses([path], [rule], []) && FileOf(path) == []
  {
    if rule == "" {
      path := "";
      EmptyRuleAcceptsRoot();
    } else {
      path := Below(rule, [""]);
      BelowIsAccepted(rule, [""]);
    }
  }

  lemma ReachedRulesShareAFile(ruleA: string, ruleB: string) returns (pathA: string, pathB: string)
    requires Sanitize(ruleA).Ok? && Sanitize(ruleB).Ok? && Reaches(ruleA, ruleB)
    ensures PolicyPasses([pathA], [ruleA], []) && PolicyPasses([pathB], [ruleB], [])
    ensures FileOf(pathA) == FileOf(pathB)
  {
    if ruleA == "" || ruleB == "" {
      assert Split("") == [""];
      pathA := RootIsShared(ruleA);
      pathB := RootIsShared(ruleB);
    } else {
      pathA, pathB := RelatedRulesShareAFile(ruleA, ruleB);
    }
  }

  lemma UnreachedRulesShareNone(ruleA: string, ruleB: string, pathA: string, pathB: string)
    requires !Reaches(ruleA, ruleB) && !Reaches(ruleB, ruleA)
    requires PolicyPasses([pathA], [ruleA], []) && PolicyPasses([pathB], [ruleB], [])
    ensures FileOf(pathA) != FileOf(pathB)
  {
    AcceptedUnder(ruleA, pathA);
    AcceptedUnder(ruleB, pathB);
    if ruleA == "" { EmptyRuleCovers(pathA); }
    if ruleB == "" { EmptyRuleCovers(pathB); }
  }

  lemma AcceptedUnder(rule: string, path: string)
    requires PolicyPasses([path], [rule], [])
    ensures Denoted(Parts(rule)) <= FileOf(path)
  {
    AcceptedIsCovered(path, [rule], []);
    CoveredLiesUnder(rule, Slashed(path));
  }

  lemma OneRuleIsEnough(path: string, rules: seq<string>, i: nat)
    requires AllSane(rules) && i < |rules| && PolicyPasses([path], [rules[i]], [])
    ensures PolicyPasses([path], rules, [])
  {
    assert Accepted([path][0], [rules[i]], []);
    assert Covers(Sanitize(rules[i]).value, Sanitize(path).value);
  }

  lemma SomeRuleAccepts(path: string, rules: seq<string>) returns (i: nat)
    requires rules != [] && PolicyPasses([path], rules, [])
    ensures i < |rules| && PolicyPasses([path], [rules[i]], [])
  {
    assert Accepted([path][0], rules, []);
    i :| 0 <= i < |rules| && Covers(Sanitize(rules[i]).value, Sanitize(path).value);
    AcceptedAlone(rules[i], path);
  }

  predicate NeitherReaches(a: seq<string>, b: seq<string>) {
    forall i, j | 0 <= i < |a| && 0 <= j < |b| :: !Reaches(a[i], b[j]) && !Reaches(b[j], a[i])
  }

  predicate KeepFilesApart(a: seq<string>, b: seq<string>, pathA: string, pathB: string) {
    PolicyPasses([pathA], a, []) && PolicyPasses([pathB], b, []) ==> FileOf(pathA) != FileOf(pathB)
  }

  lemma ReachedListsShareAFile(a: seq<string>, b: seq<string>, i: nat, j: nat)
    requires AllSane(a) && AllSane(b) && i < |a| && j < |b| && (Reaches(a[i], b[j]) || Reaches(b[j], a[i]))
    ensures exists pathA, pathB :: !KeepFilesApart(a, b, pathA, pathB)
  {
    var pathA, pathB;
    if Reaches(a[i], b[j]) {
      pathA, pathB := ReachedRulesShareAFile(a[i], b[j]);
    } else {
      pathB, pathA := ReachedRulesShareAFile(b[j], a[i]);
    }
    OneRuleIsEnough(pathA, a, i);
    OneRuleIsEnough(pathB, b, j);
    assert !KeepFilesApart(a, b, pathA, pathB);
  }

  lemma UnreachedListsShareNone(a: seq<string>, b: seq<string>, pathA: string, pathB: string)
    requires a != [] && b != [] && NeitherReaches(a, b)
    ensures KeepFilesApart(a, b, pathA, pathB)
  {
    if PolicyPasses([pathA], a, []) && PolicyPasses([pathB], b, []) {
      var i := SomeRuleAccepts(pathA, a);
      var j := SomeRuleAccepts(pathB, b);
      UnreachedRulesShareNone(a[i], b[j], pathA, pathB);
    }
  }

  /**
   The guarantee the overlap test is for, file by file: two allow lists keep their tasks from
   ever writing one file exactly when no rule of either reaches what a rule of the other names.
   */
  lemma ListsKeepFilesApartExactly(a: seq<string>, b: seq<string>)
    requires AllSane(a) && AllSane(b) && a != [] && b != []
    ensures (forall pathA, pathB :: KeepFilesApart(a, b, pathA, pathB)) <==> NeitherReaches(a, b)
  {
    if NeitherReaches(a, b) {
      forall pathA, pathB ensures KeepFilesApart(a, b, pathA, pathB) { UnreachedListsShareNone(a, b, pathA, pathB); }
    } else {
      var i, j :| 0 <= i < |a| && 0 <= j < |b| && (Reaches(a[i], b[j]) || Reaches(b[j], a[i]));
      ReachedListsShareAFile(a, b, i, j);
    }
  }

  /** For lists of canonical rules the overlap test decides just that. */
  lemma OverlapDecidesCanonicalLists(a: seq<string>, b: seq<string>)
    requires AllCanonical(a) && AllCanonical(b)
    ensures NeitherReaches(a, b) <==> !PathsOverlap(a, b)
  {
    EmptyIsNotCanonical();
    forall i, j | 0 <= i < |a| && 0 <= j < |b|
      ensures Overlap(a[i], b[j]) <==> Reaches(a[i], b[j]) || Reaches(b[j], a[i])
    {
      OverlapAgainstFileTree(a[i], b[j]);
    }
  }

  lemma ProhibitingOnlyRefuses(path: string, allowed: seq<string>, prohibited: seq<string>)
    requires PolicyPasses([path], allowed, prohibited)
    ensures PolicyPasses([path], allowed, [])
  {
    assert Accepted([path][0], allowed, prohibited);
  }

  /** Tasks whose allow lists do not reach each other never both have one file accepted, however it is spelled. */
  lemma DisjointFiles(pathA: string, allowedA: seq<string>, prohibitedA: seq<string>,
                      pathB: string, allowedB: seq<string>, prohibitedB: seq<string>)
    requires allowedA != [] && allowedB != [] && NeitherReaches(allowedA, allowedB)
    requires PolicyPasses([pathA], allowedA, prohibitedA) && PolicyPasses([pathB], allowedB, prohibitedB)
    ensures FileOf(pathA) != FileOf(pathB)
  {
    ProhibitingOnlyRefuses(pathA, allowedA, prohibitedA);
    ProhibitingOnlyRefuses(pathB, allowedB, prohibitedB);
    UnreachedListsShareNone(allowedA, allowedB, pathA, pathB);
  }

  lemma EmptyIsNotCanonical()
    ensures !Canonical("")
  {
    SplitOne("");
    assert !NamesSomething(Parts("")[0]);
  }

  predicate PlainName(name: string) {
    && NamesSomething(name) && name != ".."
    && '/' !in name && forall c | c in name :: PlainChar(c)
  }

  predicate PlainChar(c: char) { c != '\\' && c != ':' && c != '\0' }

  predicate PlainText(s: string) { s != "" && s[0] != '/' && s[|s| - 1] != '/' && forall c | c in s :: PlainChar(c) }

  /** Text the sanitiser leaves as it is. */
  lemma CleanText(path: string)
    requires PlainText(path) && ".." !in Split(path)
    ensures Slashed(path) == path && RStrip(path) == path && Sanitize(path) == Ok(path)
  {
    PlainTextStays(path);
    UnprefixedIsSane(path);
  }

  lemma PlainTextStays(path: string)
    requires PlainText(path)
    ensures Slashed(path) == path && RStrip(path) == path && LStrip(path) == path
    ensures '\0' !in path && (|path| > 1 ==> path[1] != ':')
    ensures !("//" <= path) && !("\\\\" <= path) && !("/" <= path)
  {
    assert forall i | 0 <= i < |path| :: path[i] in path;
    DifferAt("//", path, 0);
    DifferAt("\\\\", path, 0);
    DifferAt("/", path, 0);
  }

  lemma UnprefixedIsSane(path: string)
    requires ".." !in Split(path) && Slashed(path) == path && LStrip(path) == path
    requires '\0' !in path && (|path| > 1 ==> path[1] != ':')
    requires !("//" <= path) && !("\\\\" <= path) && !("/" <= path)
    ensures Sanitize(path) == Ok(path)
  {
  }

  lemma DifferAt(s: string, t: string, i: nat)
    requires i < |s| && i < |t| && s[i] != t[i]
    ensures !(s <= t) && !(t <= s)
  {
  }

  lemma SplitOne(part: string)
    requires '/' !in part
    ensures Split(part) == [part]
  {
    FirstPartOf(part, "");
    assert part + "" == part;
  }

  lemma SplitMore(part: string, rest: string)
    requires '/' !in part
    ensures Split(part + "/" + rest) == [part] + Split(rest)
  {
    FirstPartOf(part, "/" + rest);
    assert part + ("/" + rest) == part + "/" + rest;
    assert (part + "/" + rest)[|part| + 1..] == rest;
  }

  /** A file directly under a rule is accepted when the rule stands alone. */
  lemma ChildAccepted(rule: string, file: string)
    requires PlainText(rule) && PlainName(file) && ".." !in Split(rule) && ".." !in Split(rule + "/" + file)
    ensures PolicyPasses([rule + "/" + file], [rule], [])
  {
    var path := rule + "/" + file;
    CleanText(rule);
    assert PlainText(path) by { assert file[|file| - 1] in file; }
    CleanText(path);
    assert Covers(Sanitize([rule][0]).value, path);
  }

  /** A leading "./" changes the text of a path, not the file it denotes. */
  lemma DotPrefixSameFile(rest: string)
    ensures Split("./" + rest) == ["."] + Split(rest)
    ensures Denoted(Split("./" + rest)) == Denoted(Split(rest))
  {
    SplitMore(".", rest);
    assert "." + "/" + rest == "./" + rest;
    assert (["."] + Split(rest))[1..] == Split(rest);
  }

  lemma DotRuleDoesNotOverlap(dir: string)
    requires PlainText(dir) && dir != "." && '/' !in dir
    ensures PlainText("./" + dir)
    ensures !PathsOverlap([dir], ["./" + dir])
  {
    var dotted := "./" + dir;
    assert PlainText(dotted) by {
      assert dotted[|dotted| - 1] == dir[|dir| - 1];
      forall c | c in dotted ensures PlainChar(c) { if c !in dir { assert c == '.' || c == '/'; } }
    }
    PlainTextStays(dir);
    PlainTextStays(dotted);
    DotKeysDiffer(dir);
    assert !Overlap(dir, dotted);
  }

  lemma DotKeysDiffer(dir: string)
    requires dir != "" && dir != "." && '/' !in dir
    ensures !(dir + "/" <= "./" + dir + "/") && !("./" + dir + "/" <= dir + "/")
  {
    if dir[0] == '.' {
      assert dir[1] in dir;
      DifferAt(dir + "/", "./" + dir + "/", 1);
    } else {
      DifferAt(dir + "/", "./" + dir + "/", 0);
    }
  }

  /**
   The guarantee is about path *texts*.  A directory and its spelling with a leading "./" do
   not overlap, yet each policy accepts its own spelling of the same file.
   */
  lemma DotSegmentsEscapeTheGuarantee(dir: string, file: string)
    requires PlainName(dir) && PlainName(file)
    ensures !PathsOverlap([dir], ["./" + dir])
    ensures PolicyPasses([dir + "/" + file], [dir], []) && PolicyPasses(["./" + dir + "/" + file], ["./" + dir], [])
    ensures Denoted(Split(dir + "/" + file)) == Denoted(Split("./" + dir + "/" + file))
  {
    PlainNameSplits(dir);
    DotRuleDoesNotOverlap(dir);
    PlainPathAccepted(dir, file);
    DotPathAccepted(dir, file);
    DotPathsSameFile(dir, file);
  }

  lemma PlainPathAccepted(dir: string, file: string)
    requires PlainName(dir) && PlainName(file)
    ensures PolicyPasses([dir + "/" + file], [dir], [])
  {
    PlainNameSplits(dir);
    PlainNameSplits(file);
    SplitMore(dir, file);
    ChildAccepted(dir, file);
  }

  lemma DotPathAccepted(dir: string, file: string)
    requires PlainName(dir) && PlainName(file)
    ensures PolicyPasses(["./" + dir + "/" + file], ["./" + dir], [])
  {
    PlainNameSplits(dir);
    PlainNameSplits(file);
    DotPrefixSameFile(dir);
    SplitConcat("./" + dir, file);
    DotRuleDoesNotOverlap(dir);
    ChildAccepted("./" + dir, file);
  }

  lemma DotPathsSameFile(dir: string, file: string)
    ensures Denoted(Split(dir + "/" + file)) == Denoted(Split("./" + dir + "/" + file))
  {
    DotPrefixSameFile(dir + "/" + file);
    assert "./" + (dir + "/" + file) == "./" + dir + "/" + file;
  }

  lemma PlainNameSplits(name: string)
    requires PlainName(name)
    ensures PlainText(name) && Split(name) == [name]
  {
    SplitOne(name);
    assert name[0] in name && name[|name| - 1] in name;
  }
}
