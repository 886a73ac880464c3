/**
 Candidate digests (orchestrator/core/verifier.py): which collected files differ from the
 base tree, the text that lists them, and when earlier evidence stops being valid.

 SHA-256 is a function the model is given; only that it is injective and prints neither a
 colon nor a line break is used, and only where it is said.
 */
module Verifier {
  import opened Wrappers

  /** Path to content digest. */
  type Files = map<string, string>

  // ---------------------------------------------------------------------------------------
  // Sorted listings
  // ---------------------------------------------------------------------------------------

  /** Python's order on texts. */
  predicate Before(a: string, b: string) {
    b != "" && (a == "" || a[0] < b[0] || (a[0] == b[0] && Before(a[1..], b[1..])))
  }

  lemma {:induction false} BeforeIsStrict(a: string, b: string)
    ensures !(Before(a, b) && Before(b, a)) && !Before(a, a)
    ensures a != b ==> Before(a, b) || Before(b, a)
  {
    if a != "" { BeforeIsStrict(a[1..], if b == "" then "" else b[1..]); }
    if a != "" && b != "" && a[0] == b[0] && a[1..] == b[1..] { assert a == [a[0]] + a[1..] && b == [b[0]] + b[1..]; }
  }

  lemma {:induction false} BeforeIsTransitive(a: string, b: string, c: string)
    requires Before(a, b) && Before(b, c)
    ensures Before(a, c)
  {
    if a != "" && b[0] == c[0] && a[0] == b[0] { BeforeIsTransitive(a[1..], b[1..], c[1..]); }
  }

  /** After their common start `a` ends, or goes on with the smaller character. */
  ghost predicate PartsAt(a: string, b: string, n: nat) {
    n <= |a| && n < |b| && a[..n] == b[..n] && (n == |a| || a[n] < b[n])
  }

  lemma CommonStart(a: string, b: string, n: nat)
    requires PartsAt(a, b, n) && n > 0
    ensures a != "" && a[0] == b[0]
  {
    assert a[..n][0] == b[..n][0];
  }

  lemma {:induction false} BeforeExactly(a: string, b: string)
    ensures Before(a, b) <==> exists n: nat :: PartsAt(a, b, n)
  {
    if a == "" || b == "" || a[0] != b[0] {
      if Before(a, b) { assert PartsAt(a, b, 0); }
      if n: nat :| PartsAt(a, b, n) && n > 0 { CommonStart(a, b, n); }
    } else {
      BeforeExactly(a[1..], b[1..]);
      if n: nat :| PartsAt(a[1..], b[1..], n) {
        assert a[..n + 1] == [a[0]] + a[1..][..n] && b[..n + 1] == [b[0]] + b[1..][..n];
        assert PartsAt(a, b, n + 1);
      }
      if n: nat :| PartsAt(a, b, n) {
        assert a[1..][..n - 1] == a[..n][1..] && b[1..][..n - 1] == b[..n][1..];
        assert PartsAt(a[1..], b[1..], n - 1);
      }
    }
  }

  ghost predicate Ascending(list: seq<string>) { forall i, j | 0 <= i < j < |list| :: Before(list[i], list[j]) }

  /** `list` is `sorted(all)`. */
  ghost predicate Lists(list: seq<string>, all: set<string>) { Ascending(list) && forall p :: p in list <==> p in all }

  /** There is only one sorted listing of a set. */
  lemma {:induction false} ListingIsUnique(a: seq<string>, b: seq<string>, all: set<string>)
    requires Lists(a, all) && Lists(b, all)
    ensures a == b
    decreases |a|
  {
    assert b != [] ==> b[0] in all;
    if a != [] {
      assert a[0] in b by { assert a[0] in a; }
      assert b[0] in a by { assert b[0] in b; }
      FirstsAgree(a, b);
      RestLists(a, all);
      RestLists(b, all);
      ListingIsUnique(a[1..], b[1..], all - {a[0]});
      assert a == [a[0]] + a[1..] && b == [b[0]] + b[1..];
    }
  }

  lemma FirstsAgree(a: seq<string>, b: seq<string>)
    requires Ascending(a) && Ascending(b) && a != [] && b != [] && a[0] in b && b[0] in a
    ensures a[0] == b[0]
  {
    var i :| 0 <= i < |b| && b[i] == a[0];
    var j :| 0 <= j < |a| && a[j] == b[0];
    BeforeIsStrict(a[0], b[0]);
  }

  lemma RestLists(list: seq<string>, all: set<string>)
    requires Lists(list, all) && list != []
    ensures Lists(list[1..], all - {list[0]})
  {
    forall p ensures p in list[1..] <==> p in all - {list[0]} {
      if p in list[1..] {
        var i :| 0 <= i < |list[1..]| && list[1..][i] == p;
        assert list[i + 1] == p;
        BeforeIsStrict(list[0], p);
      }
      if p in all - {list[0]} {
        var i :| 0 <= i < |list| && list[i] == p;
        assert list[1..][i - 1] == p;
      }
    }
  }

  /** Insertion into a sorted listing. */
  method Insert(list: seq<string>, p: string, ghost all: set<string>) returns (r: seq<string>)
    requires Lists(list, all) && p !in all
    ensures Lists(r, all + {p})
  {
    var i := 0;
    while i < |list| && Before(list[i], p)
      invariant 0 <= i <= |list| && forall j | 0 <= j < i :: Before(list[j], p)
    {
      i := i + 1;
    }
    InsertionPoint(list, p, i);
    r := list[..i] + [p] + list[i..];
    Inserted(list, p, i, all);
  }

  lemma InsertionPoint(list: seq<string>, p: string, i: nat)
    requires Ascending(list) && p !in list && i <= |list| && (i < |list| ==> !Before(list[i], p))
    ensures forall j | i <= j < |list| :: Before(p, list[j])
  {
    forall j | i <= j < |list| ensures Before(p, list[j]) {
      BeforeIsStrict(list[i], p);
      if j > i { BeforeIsTransitive(p, list[i], list[j]); }
    }
  }

  lemma Inserted(list: seq<string>, p: string, i: nat, all: set<string>)
    requires Lists(list, all) && p !in all && i <= |list|
    requires (forall j | 0 <= j < i :: Before(list[j], p)) && forall j | i <= j < |list| :: Before(p, list[j])
    ensures Lists(list[..i] + [p] + list[i..], all + {p})
  {
    var r := list[..i] + [p] + list[i..];
    forall a, b | 0 <= a < b < |r| ensures Before(r[a], r[b]) {
      if b < i { assert r[a] == list[a] && r[b] == list[b]; }
      else if b == i { assert r[a] == list[a]; }
      else {
        assert r[b] == list[b - 1];
        if a < i { assert r[a] == list[a]; } else if a > i { assert r[a] == list[a - 1]; }
      }
    }
    forall q ensures q in r <==> q in all + {p} {
      if q in all {
        var j :| 0 <= j < |list| && list[j] == q;
        assert r[if j < i then j else j + 1] == q;
      }
      assert r[i] == p;
    }
  }

  // ---------------------------------------------------------------------------------------
  // compute_diff
  // ---------------------------------------------------------------------------------------

  /** The collected files, in the order the collector happened to meet them. */
  type Collected = seq<(string, string)>

  ghost predicate DistinctPaths(c: Collected) { forall i, j | 0 <= i < j < |c| :: c[i].0 != c[j].0 }

  function FilesOf(c: Collected): Files {
    if c == [] then map[] else FilesOf(c[..|c| - 1])[c[|c| - 1].0 := c[|c| - 1].1]
  }

  predicate Differs(base: Files, path: string, digest: string) { path !in base || base[path] != digest }

  /** Collected files whose content is not what the base tree has at that path. */
  function Changed(files: Files, base: Files): Files {
    map p | p in files && Differs(base, p, files[p]) :: files[p]
  }

  function Line(path: string, digest: string): string { path + ":" + digest }

  /** Lines joined by line breaks. */
  function Text(list: seq<string>, files: Files): string
    requires forall p | p in list :: p in files
  {
    if list == [] then ""
    else Line(list[0], files[list[0]]) + (if |list| == 1 then "" else "\n" + Text(list[1..], files))
  }

  /** Read from the back: each line is a path, a colon and its digest, and starts anew after a line break. */
  lemma {:induction false} TextExactly(list: seq<string>, files: Files)
    requires forall p | p in list :: p in files
    ensures list == [] ==> Text(list, files) == ""
    ensures |list| == 1 ==> Text(list, files) == list[0] + ":" + files[list[0]]
    ensures |list| > 1 ==>
              var init, last := list[..|list| - 1], list[|list| - 1];
              Text(list, files) == Text(init, files) + "\n" + last + ":" + files[last]
  {
    if |list| > 1 {
      var n, last := |list| - 1, list[|list| - 1];
      var rest := list[1..];
      TextExactly(rest, files);
      assert rest[|rest| - 1] == last && list[..n][1..] == rest[..|rest| - 1];
      if |list| > 2 {
        var head, middle := Line(list[0], files[list[0]]) + "\n", Text(rest[..|rest| - 1], files);
        var tail := "\n" + last + ":" + files[last];
        assert Text(list, files) == head + (middle + tail);
        assert Text(list[..n], files) == head + middle;
      }
    }
  }

  lemma {:induction false} FilesAt(c: Collected, p: string)
    requires DistinctPaths(c)
    ensures p in FilesOf(c) <==> exists i :: 0 <= i < |c| && c[i].0 == p
    ensures forall i | 0 <= i < |c| :: c[i].0 in FilesOf(c) && FilesOf(c)[c[i].0] == c[i].1
  {
    if c != [] {
      var init := c[..|c| - 1];
      FilesAt(init, p);
      assert forall i | 0 <= i < |init| :: init[i] == c[i];
    }
  }

  /** The sorted paths that differ; `None` for the base reports every collected path. */
  method SortedChanges(c: Collected, base: Option<Files>) returns (changed: seq<string>)
    requires DistinctPaths(c)
    ensures Lists(changed, (if base.Some? then Changed(FilesOf(c), base.value) else FilesOf(c)).Keys)
  {
    changed := [];
    ghost var all: set<string> := {};
    for i := 0 to |c|
      invariant Lists(changed, all) && all == Wanted(FilesOf(c[..i]), base).Keys
    {
      assert c[..i + 1][..i] == c[..i];
      NotYet(c, i);
      if base.None? || Differs(base.value, c[i].0, c[i].1) {
        changed := Insert(changed, c[i].0, all);
        all := all + {c[i].0};
      }
    }
    assert c[..|c|] == c;
  }

  function Wanted(files: Files, base: Option<Files>): Files {
    if base.Some? then Changed(files, base.value) else files
  }

  lemma NotYet(c: Collected, i: nat)
    requires DistinctPaths(c) && i < |c|
    ensures c[i].0 !in FilesOf(c[..i])
  {
    FilesAt(c[..i], c[i].0);
  }

  /** SHA-256 as far as it matters: injective, printed without separators. */
  ghost predicate HashLike(h: string -> string) {
    && (forall x, y :: h(x) == h(y) ==> x == y)
    && forall x :: ':' !in h(x) && '\n' !in h(x)
  }

  /** Paths without line breaks, digests without separators. */
  predicate Clean(files: Files) { forall p | p in files :: '\n' !in p && ':' !in files[p] && '\n' !in files[p] }

  /** The paths that differ, their digest, and whether there was a base to compare with. */
  datatype Diff = Diff(changed: seq<string>, digest: string, verified: bool)

  /** What `compute_diff` answers, whatever the order of collection. */
  ghost predicate IsDiff(h: string -> string, files: Files, base: Option<Files>, manifestDigest: string, d: Diff) {
    && Lists(d.changed, Wanted(files, base).Keys)
    && d.verified == base.Some?
    && d.digest == if base.Some? then h(Text(d.changed, files)) else manifestDigest
  }

  method ComputeDiff(h: string -> string, c: Collected, base: Option<Files>, manifestDigest: string) returns (d: Diff)
    requires DistinctPaths(c)
    ensures IsDiff(h, FilesOf(c), base, manifestDigest, d)
    ensures forall p :: p in d.changed <==>
              exists i :: 0 <= i < |c| && c[i].0 == p && (base == None || p !in base.value || base.value[p] != c[i].1)
    ensures forall i, j | 0 <= i < j < |d.changed| :: Before(d.changed[i], d.changed[j])
    ensures d.verified == (base != None) && (base == None ==> d.digest == manifestDigest)
  {
    forall p ensures p in FilesOf(c) <==> exists i :: 0 <= i < |c| && c[i].0 == p { FilesAt(c, p); }
    assert forall i | 0 <= i < |c| :: c[i].0 in FilesOf(c) && FilesOf(c)[c[i].0] == c[i].1 by { FilesAt(c, ""); }
    var changed := SortedChanges(c, base);
    if base.None? { return Diff(changed, manifestDigest, false); }
    var files := FilesOf(c);
    assert forall p | p in changed :: p in files;
    var raw := "";
    var i := |changed|;
    while i > 0
      invariant 0 <= i <= |changed| && (forall p | p in changed[i..] :: p in files) && raw == Text(changed[i..], files)
    {
      i := i - 1;
      assert changed[i..][1..] == changed[i + 1..];
      assert changed[i] in changed;
      raw := changed[i] + ":" + files[changed[i]] + (if i + 1 == |changed| then "" else "\n" + raw);
    }
    assert changed[0..] == changed;
    return Diff(changed, h(raw), true);
  }

  /** Two collections of the same files give the same answer, in whatever order they were made. */
  lemma DiffIgnoresOrder(h: string -> string, files: Files, base: Option<Files>, manifestDigest: string, d: Diff,
                         e: Diff)
    requires IsDiff(h, files, base, manifestDigest, d) && IsDiff(h, files, base, manifestDigest, e)
    ensures d == e
  {
    ListingIsUnique(d.changed, e.changed, Wanted(files, base).Keys);
  }

  // ---------------------------------------------------------------------------------------
  // The listing can be read back
  // ---------------------------------------------------------------------------------------

  /** A line with no break in it cannot stop before another one does. */
  lemma LineNotShorter(x: string, s: string, y: string, t: string)
    requires x + s == y + t && '\n' !in y && (s == "" || s[0] == '\n')
    ensures |x| >= |y|
  {
    forall k | 0 <= k < |y| ensures (x + s)[k] == y[k] != '\n' {}
    assert |x + s| == |y + t| && (s != "" ==> (x + s)[|x|] == '\n');
  }

  lemma LineEnds(x: string, s: string, y: string, t: string)
    requires x + s == y + t && '\n' !in x && '\n' !in y
    requires (s == "" || s[0] == '\n') && (t == "" || t[0] == '\n')
    ensures x == y && s == t
  {
    LineNotShorter(x, s, y, t);
    LineNotShorter(y, t, x, s);
    assert x == (x + s)[..|x|] && y == (y + t)[..|y|] && s == (x + s)[|x|..] && t == (y + t)[|y|..];
  }

  /** With no colon in a digest, the last colon of the line is the one that separates. */
  lemma PathNotLonger(p: string, d: string, q: string, e: string)
    requires Line(p, d) == Line(q, e) && ':' !in e
    ensures |p| <= |q|
  {
    forall k | |q| < k < |Line(p, d)| ensures Line(p, d)[k] != ':' { assert Line(q, e)[k] == e[k - |q| - 1]; }
    assert Line(p, d)[|p|] == ':';
  }

  lemma ColonSplits(p: string, d: string, q: string, e: string)
    requires Line(p, d) == Line(q, e) && ':' !in d && ':' !in e
    ensures p == q && d == e
  {
    PathNotLonger(p, d, q, e);
    PathNotLonger(q, e, p, d);
    var whole := Line(p, d);
    assert p == whole[..|p|] && q == whole[..|q|] && d == whole[|p| + 1..] && e == whole[|q| + 1..];
  }

  function Rest(list: seq<string>, files: Files): string
    requires list != [] && forall p | p in list :: p in files
  {
    if |list| == 1 then "" else "\n" + Text(list[1..], files)
  }

  /** Equal texts list the same paths with the same digests. */
  lemma {:induction false} TextIsInjective(a: seq<string>, fa: Files, b: seq<string>, fb: Files)
    requires Clean(fa) && Clean(fb)
    requires (forall p | p in a :: p in fa) && (forall p | p in b :: p in fb) && Text(a, fa) == Text(b, fb)
    ensures a == b && forall p | p in a :: fa[p] == fb[p]
    decreases |a|
  {
    if a != [] && b != [] {
      FirstLineAgrees(a, fa, b, fb);
      if |a| > 1 {
        TextIsInjective(a[1..], fa, b[1..], fb);
        assert b == [b[0]] + b[1..];
      }
      assert a == [a[0]] + a[1..];
    }
  }

  lemma FirstLineAgrees(a: seq<string>, fa: Files, b: seq<string>, fb: Files)
    requires Clean(fa) && Clean(fb) && a != [] && b != []
    requires (forall p | p in a :: p in fa) && (forall p | p in b :: p in fb) && Text(a, fa) == Text(b, fb)
    ensures a[0] == b[0] && fa[a[0]] == fb[b[0]] && (|a| == 1 <==> |b| == 1)
    ensures |a| > 1 ==> Text(a[1..], fa) == Text(b[1..], fb)
  {
    assert a[0] in a && b[0] in b;
    LineEnds(Line(a[0], fa[a[0]]), Rest(a, fa), Line(b[0], fb[b[0]]), Rest(b, fb));
    ColonSplits(a[0], fa[a[0]], b[0], fb[b[0]]);
    if |a| > 1 && |b| > 1 {
      assert Rest(a, fa)[1..] == Text(a[1..], fa) && Rest(b, fb)[1..] == Text(b[1..], fb);
    }
  }

  predicate CleanDigests(files: Files) { forall p | p in files :: ':' !in files[p] && '\n' !in files[p] }

  /** A whole listing read as one line, up to the digest of the last file. */
  function Merged(list: seq<string>, files: Files): string
    requires list != [] && forall p | p in list :: p in files
  {
    if |list| == 1 then list[0] else Line(list[0], files[list[0]]) + "\n" + Merged(list[1..], files)
  }

  lemma MoreOfOneLine(line: string, path: string, digest: string)
    ensures line + ("\n" + Line(path, digest)) == Line(line + "\n" + path, digest)
  {
  }

  lemma {:induction false} TextIsOneLine(list: seq<string>, files: Files)
    requires list != [] && forall p | p in list :: p in files
    ensures Text(list, files) == Line(Merged(list, files), files[list[|list| - 1]])
    ensures list[0] <= Merged(list, files)
  {
    if |list| > 1 {
      TextIsOneLine(list[1..], files);
      MoreOfOneLine(Line(list[0], files[list[0]]), Merged(list[1..], files), files[list[|list| - 1]]);
    }
  }

  lemma {:induction false} BeforeExtension(a: string, b: string, c: string)
    requires Before(a, b) && b <= c
    ensures Before(a, c)
  {
    if a != "" && a[0] == b[0] { BeforeExtension(a[1..], b[1..], c[1..]); }
  }

  /** The path reads as a line of its own, a break, and a path that sorts behind the first. */
  predicate SplitsInto(path: string, x: string, y: string, z: string) {
    path == x + ":" + y + "\n" + z && ':' !in y && '\n' !in y && Before(x, z)
  }

  ghost predicate Splittable(path: string) { exists x, y, z :: SplitsInto(path, x, y, z) }

  /** Other files, just as well formed, whose listing is the same text. */
  ghost predicate Mistakable(a: seq<string>, fa: Files, b: seq<string>, fb: Files)
    requires Lists(a, fa.Keys)
  {
    Lists(b, fb.Keys) && CleanDigests(fb) && Text(b, fb) == Text(a, fa) && fb != fa
  }

  lemma TwoKeys(files: Files, p: string, q: string, path: string, digest: string)
    requires p in files && q in files && p != q
    ensures files != map[path := digest]
  {
    assert forall k :: k in map[path := digest] <==> k == path;
  }

  lemma OneFile(list: seq<string>, files: Files)
    requires Lists(list, files.Keys) && |list| == 1
    ensures list[0] in files && list == [list[0]] && files == map[list[0] := files[list[0]]]
  {
    assert forall p :: p in files <==> p in list;
  }

  lemma ManyPassForOne(a: seq<string>, fa: Files)
    requires Lists(a, fa.Keys) && CleanDigests(fa) && |a| >= 2
    ensures exists b, fb :: Mistakable(a, fa, b, fb)
  {
    var whole, last := Merged(a, fa), a[|a| - 1];
    var fb := map[whole := fa[last]];
    TextIsOneLine(a, fa);
    assert Lists([whole], fb.Keys);
    assert Text([whole], fb) == Line(whole, fa[last]) + "";
    assert a[0] in fa && a[1] in fa && Before(a[0], a[1]);
    BeforeIsStrict(a[0], a[1]);
    TwoKeys(fa, a[0], a[1], whole, fa[last]);
    assert Mistakable(a, fa, [whole], fb);
  }

  lemma OnePassesForTwo(path: string, digest: string, x: string, y: string, z: string)
    requires SplitsInto(path, x, y, z) && ':' !in digest && '\n' !in digest
    ensures Lists([path], map[path := digest].Keys)
    ensures Mistakable([path], map[path := digest], [x, z], map[x := y, z := digest])
  {
    var fb := map[x := y, z := digest];
    BeforeIsStrict(x, z);
    assert Ascending([x, z]);
    assert [x, z][1..] == [z];
    assert Text([z], fb) == Line(z, digest) + "";
    assert Text([path], map[path := digest]) == Line(path, digest) + "";
    assert Text([x, z], fb) == (x + ":" + y) + ("\n" + (z + ":" + digest + ""));
    assert |path| > |x|;
    assert x in fb && x !in map[path := digest];
  }

  lemma NothingListed(list: seq<string>, files: Files)
    requires Lists(list, files.Keys)
    ensures list == [] <==> files == map[]
    ensures list == [] <==> Text(list, files) == ""
  {
    if list == [] {
      assert forall p :: p in files <==> p in list;
    } else {
      assert list[0] in files;
      TextIsOneLine(list, files);
    }
  }

  /** The last colon of the text separates the last digest, whatever is before it. */
  lemma MergedAgree(a: seq<string>, fa: Files, b: seq<string>, fb: Files)
    requires Lists(a, fa.Keys) && CleanDigests(fa) && a != [] && Lists(b, fb.Keys) && CleanDigests(fb) && b != []
    requires Text(a, fa) == Text(b, fb)
    ensures Merged(a, fa) == Merged(b, fb) && fa[a[|a| - 1]] == fb[b[|b| - 1]]
  {
    TextIsOneLine(a, fa);
    TextIsOneLine(b, fb);
    assert a[|a| - 1] in fa && b[|b| - 1] in fb;
    ColonSplits(Merged(a, fa), fa[a[|a| - 1]], Merged(b, fb), fb[b[|b| - 1]]);
  }

  lemma MergedSplits(list: seq<string>, files: Files)
    requires Lists(list, files.Keys) && CleanDigests(files) && |list| >= 2
    ensures Splittable(Merged(list, files))
  {
    var rest := Merged(list[1..], files);
    assert list[0] in files && Before(list[0], list[1]);
    TextIsOneLine(list[1..], files);
    BeforeExtension(list[0], list[1], rest);
    assert SplitsInto(Merged(list, files), list[0], files[list[0]], rest);
  }

  lemma AnotherReadingSplits(a: seq<string>, fa: Files, b: seq<string>, fb: Files)
    requires Lists(a, fa.Keys) && CleanDigests(fa) && |a| <= 1 && Mistakable(a, fa, b, fb)
    ensures |a| == 1 && Splittable(a[0])
  {
    NothingListed(a, fa);
    NothingListed(b, fb);
    assert a != [] && b != [];
    OneFile(a, fa);
    MergedAgree(a, fa, b, fb);
    if |b| >= 2 {
      MergedSplits(b, fb);
    } else {
      OneFile(b, fb);
      assert false;
    }
  }

  /**
   When the text of a listing does not determine the files: always with two files or more,
   which one path with line breaks imitates, and for a single file exactly when its path
   splits into a line and a path that sorts behind the line's.
   */
  lemma TextCollidesExactly(a: seq<string>, fa: Files)
    requires Lists(a, fa.Keys) && CleanDigests(fa)
    ensures (exists b, fb :: Mistakable(a, fa, b, fb)) <==> |a| >= 2 || (|a| == 1 && Splittable(a[0]))
  {
    if |a| >= 2 {
      ManyPassForOne(a, fa);
    } else {
      if b, fb :| Mistakable(a, fa, b, fb) { AnotherReadingSplits(a, fa, b, fb); }
      if |a| == 1 && Splittable(a[0]) {
        var x, y, z :| SplitsInto(a[0], x, y, z);
        OneFile(a, fa);
        OnePassesForTwo(a[0], fa[a[0]], x, y, z);
      }
    }
  }

  /** Against one base, equal digests mean equal changes: same paths, same contents. */
  lemma DiffDigestIsFaithful(h: string -> string, base: Files, manifestA: string, manifestB: string,
                             a: Files, b: Files, d: Diff, e: Diff)
    requires HashLike(h) && Clean(a) && Clean(b)
    requires IsDiff(h, a, Some(base), manifestA, d) && IsDiff(h, b, Some(base), manifestB, e)
    ensures d.digest == e.digest <==> Changed(a, base) == Changed(b, base)
  {
    if d.digest == e.digest {
      TextIsInjective(d.changed, a, e.changed, b);
      assert forall p :: p in Changed(a, base) <==> p in d.changed;
      assert forall p :: p in Changed(b, base) <==> p in e.changed;
    }
    if Changed(a, base) == Changed(b, base) {
      ListingIsUnique(d.changed, e.changed, Changed(a, base).Keys);
      SameText(d.changed, a, b);
    }
  }

  lemma {:induction false} SameText(list: seq<string>, a: Files, b: Files)
    requires forall p | p in list :: p in a && p in b && a[p] == b[p]
    ensures Text(list, a) == Text(list, b)
  {
    if list != [] {
      assert list[0] in list;
      if |list| > 1 { SameText(list[1..], a, b); }
    }
  }

  // ---------------------------------------------------------------------------------------
  // Candidate digests and invalidation
  // ---------------------------------------------------------------------------------------

  function CandidateDigest(h: string -> string, baseSha: string, diffDigest: string): string {
    h(baseSha + ":" + diffDigest)
  }

  /** The digest binds the base and the diff. */
  lemma CandidateDigestBinds(h: string -> string, base: string, diff: string, base': string, diff': string)
    requires HashLike(h) && ':' !in diff && ':' !in diff'
    ensures CandidateDigest(h, base, diff) == CandidateDigest(h, base', diff') <==> base == base' && diff == diff'
  {
    if CandidateDigest(h, base, diff) == CandidateDigest(h, base', diff') {
      assert Line(base, diff) == Line(base', diff');
      ColonSplits(base, diff, base', diff');
    }
  }

  datatype Evidence =
    Evidence(baseSha: string, candidateDigest: string, changed: seq<string>, diffDigest: string, valid: bool)

  /** Evidence measured from these files. */
  ghost predicate Measured(h: string -> string, files: Files, base: Option<Files>, manifestDigest: string,
                           e: Evidence) {
    exists d ::
      IsDiff(h, files, base, manifestDigest, d) && e.candidateDigest == CandidateDigest(h, e.baseSha, d.digest)
  }

  method InvalidateOnMutation(h: string -> string, prior: Evidence, newBase: string, c: Collected, base: Option<Files>,
                              manifestDigest: string) returns (r: Option<Evidence>)
    requires DistinctPaths(c)
    ensures exists d :: && IsDiff(h, FilesOf(c), base, manifestDigest, d)
                        && (r.None? <==> && h(newBase + ":" + d.digest) == prior.candidateDigest
                                         && newBase == prior.baseSha)
                        && (r.Some? ==> && r.value.baseSha == newBase && r.value.diffDigest == d.digest
                                        && !r.value.valid
                                        && r.value.candidateDigest == h(newBase + ":" + d.digest)
                                        && r.value.candidateDigest == CandidateDigest(h, newBase, d.digest)
                                        && Lists(r.value.changed, FilesOf(c).Keys))
  {
    var d := ComputeDiff(h, c, base, manifestDigest);
    var digest := h(newBase + ":" + d.digest);
    if digest != prior.candidateDigest || newBase != prior.baseSha {
      var all := SortedChanges(c, None);
      return Some(Evidence(newBase, digest, all, d.digest, false));
    }
    return None;
  }

  /** Evidence survives exactly when neither the base commit nor the changed files moved. */
  lemma SurvivesExactly(h: string -> string, prior: Evidence, old_: Files, oldManifest: string,
                        newBase: string, new_: Files, newManifest: string, base: Files, d: Diff)
    requires HashLike(h) && Clean(old_) && Clean(new_)
    requires Measured(h, old_, Some(base), oldManifest, prior) && IsDiff(h, new_, Some(base), newManifest, d)
    ensures CandidateDigest(h, newBase, d.digest) == prior.candidateDigest && newBase == prior.baseSha <==>
            newBase == prior.baseSha && Changed(new_, base) == Changed(old_, base)
  {
    var e :| IsDiff(h, old_, Some(base), oldManifest, e)
      && prior.candidateDigest == CandidateDigest(h, prior.baseSha, e.digest);
    CandidateDigestBinds(h, newBase, d.digest, prior.baseSha, e.digest);
    DiffDigestIsFaithful(h, base, newManifest, oldManifest, new_, old_, d, e);
  }

  /**
   What is not bound: a collected file that equals its base version.  Dropping it, or adding
   one, leaves the digest as it was, so a deletion of an unchanged file goes unnoticed.
   */
  lemma UnchangedFilesAreNotBound(h: string -> string, base: Files, manifestA: string, manifestB: string,
                                  files: Files, p: string, d: Diff, e: Diff)
    requires HashLike(h) && Clean(files) && p in files
    requires IsDiff(h, files, Some(base), manifestA, d) && IsDiff(h, files - {p}, Some(base), manifestB, e)
    ensures d.digest == e.digest <==> p in base && base[p] == files[p]
  {
    DiffDigestIsFaithful(h, base, manifestA, manifestB, files, files - {p}, d, e);
    assert !Differs(base, p, files[p]) ==> Changed(files, base) == Changed(files - {p}, base);
    assert Differs(base, p, files[p]) ==> p in Changed(files, base) && p !in Changed(files - {p}, base);
  }
}
