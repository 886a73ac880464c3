/**
 The bounded JUnit check of orchestrator/core/junit.py, from the event loop on.

 The program never builds the document: it sees a stream of start and end events, keeps a
 stack of per-element counters and folds each closed element into its parent.  The theorem
 is that this one-pass machine decides a condition on the document *tree*, stated here
 without any stack, and returns the tree's own descendant counts.
 */
module Junit {
  import opened Wrappers

  const MAX_NODES: nat := 100_000
  const MAX_DEPTH: nat := 64

  /** Element names; every name the parser does not mention is an `Other`. */
  datatype Tag = TestSuite | TestSuites | TestCase | Failure | Error | Skipped | Other(name: string)
  {
    predicate IsSuite() { TestSuite? || TestSuites? }

    predicate IsOutcome() { Failure? || Error? || Skipped? }
  }

  /** The four aggregate attributes; other attributes are never read. */
  datatype Key = KTests | KFailures | KErrors | KSkipped

  datatype Element = Element(tag: Tag, attrib: map<Key, string>, children: seq<Element>)

  datatype Event = Start(startTag: Tag) | End(endTag: Tag, attrib: map<Key, string>)

  datatype Counts = Counts(tests: nat, failures: nat, errors: nat, skipped: nat)
  {
    function Plus(other: Counts): Counts {
      Counts(tests + other.tests, failures + other.failures, errors + other.errors, skipped + other.skipped)
    }

    function At(key: Key): nat {
      match key
      case KTests => tests
      case KFailures => failures
      case KErrors => errors
      case KSkipped => skipped
    }

    /** The element's own contribution, added when it closes. */
    function Bump(tag: Tag): Counts {
      match tag
      case TestCase => this.(tests := tests + 1)
      case Failure => this.(failures := failures + 1)
      case Error => this.(errors := errors + 1)
      case Skipped => this.(skipped := skipped + 1)
      case _ => this
    }
  }

  const ZERO := Counts(0, 0, 0, 0)

  datatype JunitError =
    | StructureLimit | UnsupportedRoot | InvalidHierarchy | InvalidPlacement | ConflictingOutcomes
    | InvalidCounts | CountDiffers | Malformed | ZeroTests | AllSkipped

  // ---------------------------------------------------------------------------------------
  // The document tree: what the parser promises, with no stack and no event in sight
  // ---------------------------------------------------------------------------------------

  /** Number of elements named `tag` in the subtree, the root included. */
  function CountTag(e: Element, tag: Tag): nat
    decreases e, 1
  {
    (if e.tag == tag then 1 else 0) + CountTagIn(e.children, tag)
  }

  function CountTagIn(es: seq<Element>, tag: Tag): nat
    decreases es, 0
  {
    if es == [] then 0 else CountTag(es[0], tag) + CountTagIn(es[1..], tag)
  }

  function CountsOf(e: Element): Counts {
    Counts(CountTag(e, TestCase), CountTag(e, Failure), CountTag(e, Error), CountTag(e, Skipped))
  }

  function CountsIn(es: seq<Element>): Counts {
    Counts(CountTagIn(es, TestCase), CountTagIn(es, Failure), CountTagIn(es, Error), CountTagIn(es, Skipped))
  }

  function Size(e: Element): nat
    decreases e, 1
  {
    1 + SizeIn(e.children)
  }

  function SizeIn(es: seq<Element>): nat
    decreases es, 0
  {
    if es == [] then 0 else Size(es[0]) + SizeIn(es[1..])
  }

  function Depth(e: Element): nat
    decreases e, 1
  {
    1 + DepthIn(e.children)
  }

  function DepthIn(es: seq<Element>): nat
    decreases es, 0
  {
    if es == [] then 0
    else
      var (d, rest) := (Depth(es[0]), DepthIn(es[1..]));
      if d > rest then d else rest
  }

  /** Suites and cases hang under suites only, outcomes under cases only. */
  predicate AllowedUnder(tag: Tag, parent: Option<Tag>) {
    && (parent.None? ==> tag.IsSuite())
    && (tag.IsSuite() || tag.TestCase? ==> parent.None? || parent.value.IsSuite())
    && (tag.IsOutcome() ==> parent == Some(TestCase))
  }

  predicate WellPlaced(e: Element, parent: Option<Tag>)
    decreases e, 1
  {
    AllowedUnder(e.tag, parent) && WellPlacedIn(e.children, e.tag)
  }

  predicate WellPlacedIn(es: seq<Element>, parent: Tag)
    decreases es, 0
  {
    es == [] || (WellPlaced(es[0], Some(parent)) && WellPlacedIn(es[1..], parent))
  }

  /** A case has at most one `skipped`, and then neither a failure nor an error. */
  predicate ConsistentCase(e: Element) {
    e.tag.TestCase? ==>
      && CountTag(e, Skipped) <= 1
      && (CountTag(e, Skipped) == 1 ==> CountTag(e, Failure) == 0 && CountTag(e, Error) == 0)
  }

  predicate IsDigit(c: char) { '0' <= c <= '9' }

  predicate AllDigits(s: string) { forall i | 0 <= i < |s| :: IsDigit(s[i]) }

  predicate IsCountText(s: string) { 1 <= |s| <= 10 && AllDigits(s) }

  function DigitsValue(s: string): nat
    requires AllDigits(s)
  {
    if s == "" then 0 else 10 * DigitsValue(s[..|s| - 1]) + (s[|s| - 1] as int - '0' as int)
  }

  predicate StatesCount(text: string, n: nat) { IsCountText(text) && DigitsValue(text) == n }

  /** Every aggregate a suite supplies equals the suite's real descendants. */
  predicate HonestSuite(e: Element) {
    e.tag.IsSuite() ==> forall k: Key | k in e.attrib :: StatesCount(e.attrib[k], CountsOf(e).At(k))
  }

  predicate Consistent(e: Element)
    decreases e, 1
  {
    ConsistentCase(e) && HonestSuite(e) && ConsistentIn(e.children)
  }

  predicate ConsistentIn(es: seq<Element>)
    decreases es, 0
  {
    es == [] || (Consistent(es[0]) && ConsistentIn(es[1..]))
  }

  /** What the report must be for the program to accept it. */
  predicate Acceptable(doc: Element) {
    && WellPlaced(doc, None)
    && Consistent(doc)
    && Depth(doc) <= MAX_DEPTH
    && Size(doc) <= MAX_NODES
    && CountTag(doc, TestCase) > 0
    && CountTag(doc, TestCase) != CountTag(doc, Skipped)
  }

  // ---------------------------------------------------------------------------------------
  // The event stream of a tree
  // ---------------------------------------------------------------------------------------

  function Events(e: Element): seq<Event>
    decreases e, 1
  {
    [Start(e.tag)] + EventsIn(e.children) + [End(e.tag, e.attrib)]
  }

  function EventsIn(es: seq<Element>): seq<Event>
    decreases es, 0
  {
    if es == [] then [] else Events(es[0]) + EventsIn(es[1..])
  }

  /** Elements still open after a prefix of the stream; negative only for streams no tree has. */
  function OpenAfter(events: seq<Event>): int {
    if events == [] then 0
    else OpenAfter(events[..|events| - 1]) + (if events[|events| - 1].Start? then 1 else -1)
  }

  lemma {:induction false} OpenAfterConcat(a: seq<Event>, b: seq<Event>)
    ensures OpenAfter(a + b) == OpenAfter(a) + OpenAfter(b)
  {
    if b == [] {
      assert a + b == a;
    } else {
      var init := b[..|b| - 1];
      assert (a + b)[..|a + b| - 1] == a + init;
      OpenAfterConcat(a, init);
    }
  }

  lemma {:induction false} EventsBalanced(e: Element)
    ensures OpenAfter(Events(e)) == 0
    ensures forall k | 0 < k < |Events(e)| :: OpenAfter(Events(e)[..k]) >= 1
    decreases e, 1
  {
    var inner := EventsIn(e.children);
    EventsInBalanced(e.children);
    var open, close := [Start(e.tag)], [End(e.tag, e.attrib)];
    assert OpenAfter(open) == 1 by { assert open[..0] == []; }
    assert OpenAfter(close) == -1 by { assert close[..0] == []; }
    OpenAfterConcat(open, inner);
    OpenAfterConcat(open + inner, close);
    forall k | 0 < k < |Events(e)| ensures OpenAfter(Events(e)[..k]) >= 1 {
      assert Events(e)[..k] == open + inner[..k - 1];
      OpenAfterConcat(open, inner[..k - 1]);
    }
  }

  lemma {:induction false} EventsInBalanced(es: seq<Element>)
    ensures OpenAfter(EventsIn(es)) == 0
    ensures forall k | 0 <= k <= |EventsIn(es)| :: OpenAfter(EventsIn(es)[..k]) >= 0
    decreases es, 0
  {
    if es != [] {
      var head, tail := Events(es[0]), EventsIn(es[1..]);
      EventsBalanced(es[0]);
      EventsInBalanced(es[1..]);
      OpenAfterConcat(head, tail);
      forall k | 0 <= k <= |head + tail| ensures OpenAfter((head + tail)[..k]) >= 0 {
        if k <= |head| {
          assert (head + tail)[..k] == head[..k];
          assert head[..|head|] == head;
        } else {
          assert (head + tail)[..k] == head + tail[..k - |head|];
          OpenAfterConcat(head, tail[..k - |head|]);
        }
      }
    }
  }

  // ---------------------------------------------------------------------------------------
  // The machine, one event at a time
  // ---------------------------------------------------------------------------------------

  datatype Frame = Frame(tag: Tag, counts: Counts)

  datatype State = State(stack: seq<Frame>, nodes: nat, totals: Counts)
  {
    function Parent(): Option<Tag> {
      if stack == [] then None else Some(stack[|stack| - 1].tag)
    }

    /** The state after a whole subtree with these totals and this size went by. */
    function Absorb(counts: Counts, size: nat): State {
      if stack == [] then State([], nodes + size, counts)
      else State(stack[..|stack| - 1] + [Frame(stack[|stack| - 1].tag, stack[|stack| - 1].counts.Plus(counts))],
                 nodes + size, totals)
    }
  }

  const INITIAL := State([], 0, ZERO)

  function OnStart(s: State, tag: Tag): Result<State, JunitError> {
    var parent := s.Parent();
    if s.nodes + 1 > MAX_NODES || |s.stack| >= MAX_DEPTH then Err(StructureLimit)
    else if parent.None? && !tag.IsSuite() then Err(UnsupportedRoot)
    else if (tag.IsSuite() || tag.TestCase?) && !(parent.None? || parent.value.IsSuite()) then Err(InvalidHierarchy)
    else if tag.IsOutcome() && parent != Some(TestCase) then Err(InvalidPlacement)
    else Ok(State(s.stack + [Frame(tag, ZERO)], s.nodes + 1, s.totals))
  }

  /** Check of one attribute, in the fixed key order of the source. */
  function CheckKey(attrib: map<Key, string>, counts: Counts, key: Key): Option<JunitError> {
    if key !in attrib then None
    else if !IsCountText(attrib[key]) then Some(InvalidCounts)
    else if DigitsValue(attrib[key]) != counts.At(key) then Some(CountDiffers)
    else None
  }

  const KEYS: seq<Key> := [KTests, KFailures, KErrors, KSkipped]

  function CheckKeys(attrib: map<Key, string>, counts: Counts, keys: seq<Key>): Option<JunitError> {
    if keys == [] then None
    else
      var first := CheckKey(attrib, counts, keys[0]);
      if first.Some? then first else CheckKeys(attrib, counts, keys[1..])
  }

  function OnEnd(s: State, tag: Tag, attrib: map<Key, string>): Result<State, JunitError>
    requires s.stack != []
  {
    var counts := s.stack[|s.stack| - 1].counts.Bump(tag);
    var rest := s.(stack := s.stack[..|s.stack| - 1]);
    if tag.TestCase? && (counts.skipped > 1 || (counts.skipped != 0 && (counts.failures != 0 || counts.errors != 0)))
    then Err(ConflictingOutcomes)
    else
      var bad := if tag.IsSuite() then CheckKeys(attrib, counts, KEYS) else None;
      if bad.Some? then Err(bad.value) else Ok(rest.Absorb(counts, 0))
  }

  function Step(s: State, event: Event): Result<State, JunitError> {
    match event
    case Start(tag) => OnStart(s, tag)
    case End(tag, attrib) => if s.stack == [] then Err(Malformed) else OnEnd(s, tag, attrib)
  }

  function Run(s: State, events: seq<Event>): Result<State, JunitError>
    decreases |events|
  {
    if events == [] then Ok(s)
    else
      var next := Step(s, events[0]);
      if next.Err? then next else Run(next.value, events[1..])
  }

  lemma {:induction false} RunConcat(s: State, a: seq<Event>, b: seq<Event>)
    ensures Run(s, a + b) == (var mid := Run(s, a); if mid.Err? then mid else Run(mid.value, b))
    decreases |a|
  {
    if a == [] {
      assert a + b == b;
    } else {
      assert (a + b)[1..] == a[1..] + b;
      var next := Step(s, a[0]);
      if next.Ok? { RunConcat(next.value, a[1..], b); }
    }
  }

  lemma {:induction false} CheckKeysLooksAtEach(attrib: map<Key, string>, counts: Counts, keys: seq<Key>)
    ensures CheckKeys(attrib, counts, keys).None? <==> forall k | k in keys :: CheckKey(attrib, counts, k).None?
  {
    if keys != [] {
      assert keys == [keys[0]] + keys[1..];
      CheckKeysLooksAtEach(attrib, counts, keys[1..]);
    }
  }

  lemma CheckKeysIsHonesty(attrib: map<Key, string>, counts: Counts)
    ensures CheckKeys(attrib, counts, KEYS).None? <==>
            forall k: Key | k in attrib :: StatesCount(attrib[k], counts.At(k))
  {
    CheckKeysLooksAtEach(attrib, counts, KEYS);
    forall k: Key ensures k in KEYS {
      assert KEYS[0] == KTests && KEYS[1] == KFailures && KEYS[2] == KErrors && KEYS[3] == KSkipped;
      match k { case KTests => case KFailures => case KErrors => case KSkipped => }
    }
    assert forall k: Key :: CheckKey(attrib, counts, k).None? <==>
      (k in attrib ==> StatesCount(attrib[k], counts.At(k)));
  }

  // ---------------------------------------------------------------------------------------
  // Refinement: the machine over Events(e) is the tree condition over e
  // ---------------------------------------------------------------------------------------

  predicate Fits(s: State, e: Element) {
    && WellPlaced(e, s.Parent())
    && Consistent(e)
    && |s.stack| + Depth(e) <= MAX_DEPTH
    && s.nodes + Size(e) <= MAX_NODES
  }

  predicate FitsIn(s: State, es: seq<Element>)
    requires s.stack != []
  {
    && WellPlacedIn(es, s.Parent().value)
    && ConsistentIn(es)
    && |s.stack| + DepthIn(es) <= MAX_DEPTH
    && s.nodes + SizeIn(es) <= MAX_NODES
  }

  /** What the machine must make of a subtree: swallow it and keep its totals, or refuse it. */
  ghost predicate Judges(s: State, e: Element, r: Result<State, JunitError>) {
    if Fits(s, e) then r == Ok(s.Absorb(CountsOf(e), Size(e))) else r.Err?
  }

  ghost predicate JudgesIn(s: State, es: seq<Element>, r: Result<State, JunitError>)
    requires s.stack != []
  {
    if FitsIn(s, es) then r == Ok(s.Absorb(CountsIn(es), SizeIn(es))) else r.Err?
  }

  /** From any machine state, a subtree is swallowed exactly when it fits, and leaves its totals behind. */
  lemma {:induction false} RunTree(s: State, e: Element)
    requires |s.stack| <= MAX_DEPTH && s.nodes <= MAX_NODES
    ensures Judges(s, e, Run(s, Events(e)))
    decreases e, 1
  {
    RunElement(s, e);
    var inside := OnStart(s, e.tag);
    if inside.Ok? {
      RunForest(inside.value, e.children);
      ElementJudged(s, e, Run(inside.value, EventsIn(e.children)));
    } else {
      FitsUnfolds(s, e);
    }
  }

  /** Opening, children, closing: the three parts of the machine's work on one element. */
  lemma RunElement(s: State, e: Element)
    ensures Run(s, Events(e)) ==
            (var inside := OnStart(s, e.tag);
             if inside.Err? then inside
             else
               var filled := Run(inside.value, EventsIn(e.children));
               if filled.Err? then filled else Step(filled.value, End(e.tag, e.attrib)))
  {
    SplitTree(s, e);
    var inside := OnStart(s, e.tag);
    if inside.Ok? { RunThenOne(inside.value, EventsIn(e.children), End(e.tag, e.attrib)); }
  }

  lemma ElementJudged(s: State, e: Element, filled: Result<State, JunitError>)
    requires |s.stack| <= MAX_DEPTH && s.nodes <= MAX_NODES
    requires OnStart(s, e.tag).Ok? && JudgesIn(OnStart(s, e.tag).value, e.children, filled)
    ensures Judges(s, e, if filled.Err? then filled else Step(filled.value, End(e.tag, e.attrib)))
  {
    FitsUnfolds(s, e);
    if filled.Ok? {
      FilledStack(s, e.tag, CountsIn(e.children), SizeIn(e.children));
      CloseTree(s, filled.value, e);
    }
  }

  lemma FitsUnfolds(s: State, e: Element)
    requires |s.stack| <= MAX_DEPTH && s.nodes <= MAX_NODES
    ensures Fits(s, e) <==>
              && OnStart(s, e.tag).Ok?
              && FitsIn(OnStart(s, e.tag).value, e.children)
              && ConsistentCase(e) && HonestSuite(e)
  {
    assert OnStart(s, e.tag).Ok? <==> s.nodes < MAX_NODES && |s.stack| < MAX_DEPTH && AllowedUnder(e.tag, s.Parent());
    if OnStart(s, e.tag).Ok? {
      var inside := OnStart(s, e.tag).value;
      assert inside.Parent() == Some(e.tag);
    }
  }

  lemma FilledStack(s: State, tag: Tag, counts: Counts, size: nat)
    requires OnStart(s, tag).Ok?
    ensures OnStart(s, tag).value.Absorb(counts, size) ==
            State(s.stack + [Frame(tag, counts)], s.nodes + 1 + size, s.totals)
  {
    assert (s.stack + [Frame(tag, ZERO)])[..|s.stack|] == s.stack;
    assert ZERO.Plus(counts) == counts;
  }

  lemma RunOne(s: State, event: Event)
    ensures Run(s, [event]) == Step(s, event)
  {
    var next := Step(s, event);
    assert [event][1..] == [];
    if next.Ok? { assert Run(next.value, []) == next; }
  }

  lemma RunThenOne(s: State, events: seq<Event>, last: Event)
    ensures Run(s, events + [last]) == (var mid := Run(s, events); if mid.Err? then mid else Step(mid.value, last))
  {
    RunConcat(s, events, [last]);
    if Run(s, events).Ok? { RunOne(Run(s, events).value, last); }
  }

  lemma SplitTree(s: State, e: Element)
    ensures Run(s, Events(e)) ==
            (var inside := OnStart(s, e.tag);
             if inside.Err? then inside else Run(inside.value, EventsIn(e.children) + [End(e.tag, e.attrib)]))
  {
    var open, rest := Start(e.tag), EventsIn(e.children) + [End(e.tag, e.attrib)];
    assert Events(e) == [open] + rest;
    RunConcat(s, [open], rest);
    RunOne(s, open);
  }

  lemma CloseTree(s: State, filled: State, e: Element)
    requires filled.nodes == s.nodes + Size(e) && filled.totals == s.totals
    requires filled.stack == s.stack + [Frame(e.tag, CountsIn(e.children))]
    ensures OnEnd(filled, e.tag, e.attrib).Ok? <==> ConsistentCase(e) && HonestSuite(e)
    ensures OnEnd(filled, e.tag, e.attrib).Ok? ==>
              OnEnd(filled, e.tag, e.attrib).value == s.Absorb(CountsOf(e), Size(e))
  {
    assert filled.stack[..|filled.stack| - 1] == s.stack;
    assert CountsIn(e.children).Bump(e.tag) == CountsOf(e);
    CheckKeysIsHonesty(e.attrib, CountsOf(e));
  }

  lemma {:induction false} RunForest(s: State, es: seq<Element>)
    requires s.stack != [] && |s.stack| <= MAX_DEPTH && s.nodes <= MAX_NODES
    ensures JudgesIn(s, es, Run(s, EventsIn(es)))
    decreases es, 0
  {
    if es == [] {
      assert s.stack == s.stack[..|s.stack| - 1] + [s.stack[|s.stack| - 1]];
      assert s.Absorb(CountsIn(es), SizeIn(es)) == s;
    } else {
      var head, tail := es[0], es[1..];
      RunConcat(s, Events(head), EventsIn(tail));
      RunTree(s, head);
      FitsInUnfolds(s, es);
      if Fits(s, head) {
        var mid := s.Absorb(CountsOf(head), Size(head));
        RunForest(mid, tail);
        AbsorbTwice(s, head, tail);
        assert [head] + tail == es;
      }
    }
  }

  lemma FitsInUnfolds(s: State, es: seq<Element>)
    requires s.stack != [] && es != [] && |s.stack| <= MAX_DEPTH && s.nodes <= MAX_NODES
    ensures FitsIn(s, es) <==> Fits(s, es[0]) && FitsIn(s.Absorb(CountsOf(es[0]), Size(es[0])), es[1..])
  {
    var mid := s.Absorb(CountsOf(es[0]), Size(es[0]));
    assert mid.Parent() == s.Parent() && |mid.stack| == |s.stack| && mid.nodes == s.nodes + Size(es[0]);
  }

  lemma AbsorbTwice(s: State, head: Element, tail: seq<Element>)
    requires s.stack != []
    ensures s.Absorb(CountsOf(head), Size(head)).Absorb(CountsIn(tail), SizeIn(tail)) ==
            s.Absorb(CountsIn([head] + tail), SizeIn([head] + tail))
    ensures [head] + tail != [] && ([head] + tail)[1..] == tail
  {
    assert ([head] + tail)[1..] == tail;
    assert CountsOf(head).Plus(CountsIn(tail)) == CountsIn([head] + tail);
  }

  // ---------------------------------------------------------------------------------------
  // Numerals
  // ---------------------------------------------------------------------------------------

  function Digit(d: nat): char
    requires d < 10
  {
    ('0' as int + d) as char
  }

  /** The decimal numeral of a number, without zeros in front. */
  function Numeral(n: nat): string {
    if n < 10 then [Digit(n)] else Numeral(n / 10) + [Digit(n % 10)]
  }

  function ZeroDigits(k: nat): string { seq(k, _ => '0') }

  ghost predicate NumeralOf(text: string, n: nat) { exists k: nat :: text == ZeroDigits(k) + Numeral(n) }

  function Pow10(k: nat): nat { if k == 0 then 1 else 10 * Pow10(k - 1) }

  /** Digits weighted by powers of ten, from the left. */
  function Weighted(s: string): nat
    requires AllDigits(s)
  {
    if s == "" then 0 else (s[0] as int - '0' as int) * Pow10(|s| - 1) + Weighted(s[1..])
  }

  lemma {:induction false} WeightedSnoc(s: string, c: char)
    requires AllDigits(s) && IsDigit(c)
    ensures AllDigits(s + [c]) && Weighted(s + [c]) == 10 * Weighted(s) + (c as int - '0' as int)
  {
    if s == "" {
      assert s + [c] == [c] && [c][1..] == "";
    } else {
      WeightedSnoc(s[1..], c);
      assert (s + [c])[1..] == s[1..] + [c];
      TimesTen(s[0] as int - '0' as int, Pow10(|s| - 1));
    }
  }

  lemma TimesTen(d: int, p: int)
    ensures d * (10 * p) == 10 * (d * p)
  {
  }

  /** What is read off a count text: the sum of its digits times their powers of ten. */
  lemma {:induction false} DigitsAreWeighted(s: string)
    requires AllDigits(s)
    ensures DigitsValue(s) == Weighted(s)
  {
    if s != "" {
      var init, c := s[..|s| - 1], s[|s| - 1];
      DigitsAreWeighted(init);
      WeightedSnoc(init, c);
      assert s == init + [c];
    }
  }

  lemma {:induction false} ZerosInFront(k: nat, s: string)
    requires AllDigits(s)
    ensures AllDigits(ZeroDigits(k) + s) && Weighted(ZeroDigits(k) + s) == Weighted(s)
  {
    if k == 0 {
      assert ZeroDigits(0) + s == s;
    } else {
      ZerosInFront(k - 1, s);
      assert (ZeroDigits(k) + s)[1..] == ZeroDigits(k - 1) + s;
    }
  }

  lemma {:induction false} NumeralIsWeighted(n: nat)
    ensures AllDigits(Numeral(n)) && Weighted(Numeral(n)) == n
  {
    if n < 10 {
      assert [Digit(n)][1..] == "";
    } else {
      NumeralIsWeighted(n / 10);
      WeightedSnoc(Numeral(n / 10), Digit(n % 10));
    }
  }

  lemma NumeralSnoc(n: nat, c: char)
    requires n > 0 && IsDigit(c)
    ensures Numeral(10 * n + (c as int - '0' as int)) == Numeral(n) + [c]
  {
    var d := c as int - '0' as int;
    assert (10 * n + d) / 10 == n && (10 * n + d) % 10 == d;
  }

  lemma ZeroSnoc(k: nat, c: char)
    requires IsDigit(c)
    ensures ZeroDigits(k) + Numeral(0) + [c] == ZeroDigits(k + 1) + Numeral(c as int - '0' as int)
  {
  }

  lemma OneMoreDigit(init: string, n: nat, c: char)
    requires NumeralOf(init, n) && IsDigit(c)
    ensures NumeralOf(init + [c], 10 * n + (c as int - '0' as int))
  {
    var k: nat :| init == ZeroDigits(k) + Numeral(n);
    if n == 0 {
      ZeroSnoc(k, c);
    } else {
      NumeralSnoc(n, c);
      assert init + [c] == ZeroDigits(k) + (Numeral(n) + [c]);
    }
  }

  /** A digit text is its own value's numeral, with zeros in front. */
  lemma {:induction false} DigitsAreNumeral(s: string)
    requires AllDigits(s) && s != ""
    ensures NumeralOf(s, DigitsValue(s))
  {
    var init, c := s[..|s| - 1], s[|s| - 1];
    assert s == init + [c];
    if init == "" {
      assert DigitsValue(init) == 0 && s == ZeroDigits(0) + Numeral(DigitsValue(s));
    } else {
      DigitsAreNumeral(init);
      OneMoreDigit(init, DigitsValue(init), c);
    }
  }

  /** A count text states a number exactly when it is that number's numeral, zeros in front allowed. */
  lemma DigitsValueExactly(s: string, n: nat)
    requires AllDigits(s) && s != ""
    ensures DigitsValue(s) == n <==> NumeralOf(s, n)
  {
    DigitsAreNumeral(s);
    if k: nat :| s == ZeroDigits(k) + Numeral(n) {
      NumeralIsWeighted(n);
      ZerosInFront(k, Numeral(n));
      DigitsAreWeighted(s);
    }
  }

  lemma NumeralDigits(k: nat, n: nat)
    ensures AllDigits(ZeroDigits(k) + Numeral(n)) && Numeral(n) != ""
  {
    NumeralIsWeighted(n);
    ZerosInFront(k, Numeral(n));
  }

  lemma StatesCountExactly(text: string, n: nat)
    ensures StatesCount(text, n) <==> 1 <= |text| <= 10 && NumeralOf(text, n)
  {
    if k: nat :| text == ZeroDigits(k) + Numeral(n) { NumeralDigits(k, n); }
    if AllDigits(text) && text != "" { DigitsValueExactly(text, n); }
  }

  // ---------------------------------------------------------------------------------------
  // Acceptance in plain terms
  // ---------------------------------------------------------------------------------------

  ghost predicate Within(c: Element, e: Element)
    decreases e
  {
    c == e || exists i | 0 <= i < |e.children| :: Within(c, e.children[i])
  }

  /** Where each element stands: suites and cases in suites, outcomes in cases. */
  ghost predicate EachInPlace(doc: Element) {
    forall e, i | Within(e, doc) && 0 <= i < |e.children| :: ChildInPlace(e.tag, e.children[i].tag)
  }

  predicate ChildInPlace(parent: Tag, child: Tag) {
    && (child in {TestSuite, TestSuites, TestCase} ==> parent in {TestSuite, TestSuites})
    && (child in {Failure, Error, Skipped} ==> parent == TestCase)
  }

  ghost predicate EachCaseConsistent(doc: Element) {
    forall e | Within(e, doc) && e.tag == TestCase ::
      CountTag(e, Skipped) == 0 || (CountTag(e, Skipped) == 1 && CountTag(e, Failure) == 0 && CountTag(e, Error) == 0)
  }

  /** The elements an aggregate is about. */
  function Counted(key: Key): Tag {
    match key case KTests => TestCase case KFailures => Failure case KErrors => Error case KSkipped => Skipped
  }

  ghost predicate AggregateTrue(e: Element, key: Key) {
    key in e.attrib ==> |e.attrib[key]| <= 10 && NumeralOf(e.attrib[key], CountTag(e, Counted(key)))
  }

  ghost predicate EachAggregateTrue(doc: Element) {
    forall e, key: Key | Within(e, doc) && e.tag in {TestSuite, TestSuites} :: AggregateTrue(e, key)
  }

  lemma WithinChild(e: Element, doc: Element, i: nat)
    requires i < |doc.children| && Within(e, doc.children[i])
    ensures Within(e, doc)
  {
  }

  lemma {:induction false} PlacedMeans(e: Element, parent: Option<Tag>)
    ensures WellPlaced(e, parent) <==>
              (if parent.None? then e.tag in {TestSuite, TestSuites} else ChildInPlace(parent.value, e.tag))
              && EachInPlace(e)
    decreases e, 1
  {
    PlacedInMeans(e.children, e.tag);
    forall d, i | Within(d, e) && 0 <= i < |d.children| && WellPlacedIn(e.children, e.tag)
      ensures ChildInPlace(d.tag, d.children[i].tag)
    {
      if d != e { var j :| 0 <= j < |e.children| && Within(d, e.children[j]); assert EachInPlace(e.children[j]); }
    }
    if EachInPlace(e) {
      assert Within(e, e);
      forall j | 0 <= j < |e.children| ensures ChildInPlace(e.tag, e.children[j].tag) && EachInPlace(e.children[j]) {
        forall d, i | Within(d, e.children[j]) && 0 <= i < |d.children| ensures ChildInPlace(d.tag, d.children[i].tag) {
          WithinChild(d, e, j);
        }
      }
    }
  }

  lemma {:induction false} PlacedInMeans(es: seq<Element>, parent: Tag)
    ensures WellPlacedIn(es, parent) <==>
              forall j | 0 <= j < |es| :: ChildInPlace(parent, es[j].tag) && EachInPlace(es[j])
    decreases es, 0
  {
    if es != [] {
      PlacedMeans(es[0], Some(parent));
      PlacedInMeans(es[1..], parent);
      assert forall j | 1 <= j < |es| :: es[j] == es[1..][j - 1];
    }
  }

  /** Every element, and not only the root, is a consistent case and an honest suite. */
  ghost predicate EachSound(doc: Element) { forall e | Within(e, doc) :: ConsistentCase(e) && HonestSuite(e) }

  lemma {:induction false} ConsistentMeans(e: Element)
    ensures Consistent(e) <==> EachSound(e)
    decreases e, 1
  {
    ConsistentInMeans(e.children);
    if Consistent(e) {
      forall d | Within(d, e) ensures ConsistentCase(d) && HonestSuite(d) {
        if d != e { var j :| 0 <= j < |e.children| && Within(d, e.children[j]); assert EachSound(e.children[j]); }
      }
    }
    if EachSound(e) {
      assert Within(e, e);
      forall j | 0 <= j < |e.children| ensures EachSound(e.children[j]) {
        forall d | Within(d, e.children[j]) ensures ConsistentCase(d) && HonestSuite(d) { WithinChild(d, e, j); }
      }
    }
  }

  lemma {:induction false} ConsistentInMeans(es: seq<Element>)
    ensures ConsistentIn(es) <==> forall j | 0 <= j < |es| :: EachSound(es[j])
    decreases es, 0
  {
    if es != [] {
      ConsistentMeans(es[0]);
      ConsistentInMeans(es[1..]);
      assert forall j | 1 <= j < |es| :: es[j] == es[1..][j - 1];
    }
  }

  lemma HonestSuiteMeans(e: Element)
    ensures HonestSuite(e) <==> (e.tag in {TestSuite, TestSuites} ==> forall key: Key :: AggregateTrue(e, key))
  {
    forall key: Key | key in e.attrib
      ensures StatesCount(e.attrib[key], CountsOf(e).At(key)) <==> AggregateTrue(e, key)
    {
      StatesCountExactly(e.attrib[key], CountTag(e, Counted(key)));
      if k: nat :| e.attrib[key] == ZeroDigits(k) + Numeral(CountTag(e, Counted(key))) {
        NumeralDigits(k, CountTag(e, Counted(key)));
      }
    }
  }

  lemma SoundMeans(doc: Element)
    ensures EachSound(doc) <==> EachCaseConsistent(doc) && EachAggregateTrue(doc)
  {
    forall e | Within(e, doc)
      ensures HonestSuite(e) <==> (e.tag in {TestSuite, TestSuites} ==> forall key: Key :: AggregateTrue(e, key))
    {
      HonestSuiteMeans(e);
    }
  }

  /** `n` elements, each inside the one before. */
  ghost predicate Nests(e: Element, n: nat)
    decreases e
  {
    n <= 1 || exists i | 0 <= i < |e.children| :: Nests(e.children[i], n - 1)
  }

  lemma {:induction false} DepthMeans(e: Element, n: nat)
    ensures n <= Depth(e) <==> Nests(e, n)
    decreases e, 1
  {
    if n > 1 { DepthInMeans(e.children, n - 1); }
  }

  lemma {:induction false} DepthInMeans(es: seq<Element>, n: nat)
    requires n >= 1
    ensures n <= DepthIn(es) <==> exists i | 0 <= i < |es| :: Nests(es[i], n)
    decreases es, 0
  {
    if es != [] {
      DepthMeans(es[0], n);
      DepthInMeans(es[1..], n);
      if i :| 0 <= i < |es[1..]| && Nests(es[1..][i], n) { assert Nests(es[i + 1], n); }
      if i :| 0 <= i < |es| && Nests(es[i], n) { if i > 0 { assert Nests(es[1..][i - 1], n); } }
    }
  }

  /** Each element is two events. */
  lemma {:induction false} SizeMeans(e: Element)
    ensures |Events(e)| == 2 * Size(e)
    decreases e, 1
  {
    SizeInMeans(e.children);
  }

  lemma {:induction false} SizeInMeans(es: seq<Element>)
    ensures |EventsIn(es)| == 2 * SizeIn(es)
    decreases es, 0
  {
    if es != [] {
      SizeMeans(es[0]);
      SizeInMeans(es[1..]);
    }
  }

  /**
   What acceptance comes to, element by element: the root is a suite, everything stands where
   it may, no case contradicts itself, every aggregate a suite supplies is the numeral of what
   is really under it, the limits hold, and something ran.
   */
  lemma AcceptableExactly(doc: Element)
    ensures Acceptable(doc) <==>
              && doc.tag in {TestSuite, TestSuites} && EachInPlace(doc)
              && EachCaseConsistent(doc) && EachAggregateTrue(doc)
              && !Nests(doc, 65) && |Events(doc)| <= 200_000
              && CountTag(doc, TestCase) > 0 && CountTag(doc, TestCase) != CountTag(doc, Skipped)
  {
    PlacedMeans(doc, None);
    ConsistentMeans(doc);
    SoundMeans(doc);
    DepthMeans(doc, 65);
    SizeMeans(doc);
  }

  // ---------------------------------------------------------------------------------------
  // Consequences of acceptance
  // ---------------------------------------------------------------------------------------

  /** Under a non-suite, non-case element there is nothing to count at all. */
  lemma {:induction false} NothingBelow(es: seq<Element>, parent: Tag, tag: Tag)
    requires WellPlacedIn(es, parent) && !parent.IsSuite() && !parent.TestCase? && !tag.Other?
    requires !tag.IsSuite()
    ensures CountTagIn(es, tag) == 0
    decreases es
  {
    if es != [] {
      assert es[0].tag.Other?;
      NothingBelow(es[0].children, es[0].tag, tag);
      NothingBelow(es[1..], parent, tag);
    }
  }

  /** A case contains no further case, so its outcomes are its own. */
  lemma {:induction false} NoNestedCase(es: seq<Element>)
    requires WellPlacedIn(es, TestCase)
    ensures CountTagIn(es, TestCase) == 0
    decreases es
  {
    if es != [] {
      NothingBelow(es[0].children, es[0].tag, TestCase);
      NoNestedCase(es[1..]);
    }
  }

  /** Skipped elements never outnumber cases; if they are fewer, some case really ran. */
  lemma {:induction false} SkippedCases(e: Element, parent: Option<Tag>)
    requires WellPlaced(e, parent) && Consistent(e) && !e.tag.IsOutcome()
    ensures CountTag(e, Skipped) <= CountTag(e, TestCase)
    ensures CountTag(e, Skipped) < CountTag(e, TestCase) ==>
              exists c :: Within(c, e) && c.tag.TestCase? && CountTag(c, Skipped) == 0
    decreases e, 1
  {
    if e.tag.TestCase? {
      NoNestedCase(e.children);
      assert Within(e, e);
    } else if e.tag.IsSuite() {
      SkippedCasesIn(e.children, e.tag);
      if CountTag(e, Skipped) < CountTag(e, TestCase) {
        var i, c :| 0 <= i < |e.children| && Within(c, e.children[i]) && c.tag.TestCase? && CountTag(c, Skipped) == 0;
        assert Within(c, e);
      }
    } else {
      NothingBelow(e.children, e.tag, Skipped);
      NothingBelow(e.children, e.tag, TestCase);
    }
  }

  lemma {:induction false} SkippedCasesIn(es: seq<Element>, parent: Tag)
    requires WellPlacedIn(es, parent) && ConsistentIn(es) && parent.IsSuite()
    ensures CountTagIn(es, Skipped) <= CountTagIn(es, TestCase)
    ensures CountTagIn(es, Skipped) < CountTagIn(es, TestCase) ==>
              exists i, c :: 0 <= i < |es| && Within(c, es[i]) && c.tag.TestCase? && CountTag(c, Skipped) == 0
    decreases es, 0
  {
    if es != [] {
      SkippedCases(es[0], Some(parent));
      SkippedCasesIn(es[1..], parent);
      if CountTag(es[0], Skipped) < CountTag(es[0], TestCase) {
        var c :| Within(c, es[0]) && c.tag.TestCase? && CountTag(c, Skipped) == 0;
        assert 0 <= 0 < |es| && Within(c, es[0]);
      } else if CountTagIn(es, Skipped) < CountTagIn(es, TestCase) {
        var i, c :| 0 <= i < |es[1..]| && Within(c, es[1..][i]) && c.tag.TestCase? && CountTag(c, Skipped) == 0;
        assert es[1..][i] == es[i + 1];
        assert Within(c, es[i + 1]);
      }
    }
  }

  /** An accepted report has fewer skips than cases, and a case that was not skipped. */
  lemma AcceptedReportRanSomething(doc: Element)
    requires Acceptable(doc)
    ensures CountsOf(doc).skipped < CountsOf(doc).tests
    ensures exists c :: Within(c, doc) && c.tag.TestCase? && CountTag(c, Skipped) == 0
  {
    SkippedCases(doc, None);
  }

  /** Nothing inside a document counts for more than the document. */
  lemma {:induction false} CountsInside(c: Element, e: Element, tag: Tag)
    requires Within(c, e)
    ensures CountTag(c, tag) <= CountTag(e, tag)
    decreases e
  {
    if c != e {
      var i :| 0 <= i < |e.children| && Within(c, e.children[i]);
      CountsInside(c, e.children[i], tag);
      CountOfChild(e.children, i, tag);
    }
  }

  lemma {:induction false} CountOfChild(es: seq<Element>, i: nat, tag: Tag)
    requires i < |es|
    ensures CountTag(es[i], tag) <= CountTagIn(es, tag)
  {
    if i > 0 {
      assert es[1..][i - 1] == es[i];
      CountOfChild(es[1..], i - 1, tag);
    }
  }

  /** Accepted without failures and errors, a report holds a test that ran and passed. */
  lemma CleanReportPassedSomething(doc: Element)
    requires Acceptable(doc) && CountsOf(doc).failures == 0 && CountsOf(doc).errors == 0
    ensures exists c :: && Within(c, doc) && c.tag.TestCase?
                        && CountTag(c, Skipped) == 0 && CountTag(c, Failure) == 0 && CountTag(c, Error) == 0
  {
    AcceptedReportRanSomething(doc);
    var c :| Within(c, doc) && c.tag.TestCase? && CountTag(c, Skipped) == 0;
    CountsInside(c, doc, Failure);
    CountsInside(c, doc, Error);
  }

  // ---------------------------------------------------------------------------------------
  // The program
  // ---------------------------------------------------------------------------------------

  /** A start event: limits, placement, then push. */
  method OpenElement(s: State, tag: Tag) returns (r: Result<State, JunitError>)
    ensures r == OnStart(s, tag)
  {
    var nodes := s.nodes + 1;
    if nodes > MAX_NODES || |s.stack| >= MAX_DEPTH { return Err(StructureLimit); }
    var parent := if |s.stack| > 0 then Some(s.stack[|s.stack| - 1].tag) else None;
    if parent.None? && !tag.IsSuite() { return Err(UnsupportedRoot); }
    if (tag.IsSuite() || tag.TestCase?) && !(parent.None? || parent.value.IsSuite()) { return Err(InvalidHierarchy); }
    if tag.IsOutcome() && parent != Some(TestCase) { return Err(InvalidPlacement); }
    return Ok(State(s.stack + [Frame(tag, ZERO)], nodes, s.totals));
  }

  /** An end event: pop, judge the closed element, fold its counts into its parent. */
  method CloseElement(s: State, tag: Tag, attrib: map<Key, string>) returns (r: Result<State, JunitError>)
    requires s.stack != []
    ensures r == OnEnd(s, tag, attrib)
  {
    var counts := s.stack[|s.stack| - 1].counts.Bump(tag);
    var stack := s.stack[..|s.stack| - 1];
    if tag.TestCase? && (counts.skipped > 1 || (counts.skipped != 0 && (counts.failures != 0 || counts.errors != 0))) {
      return Err(ConflictingOutcomes);
    }
    if tag.IsSuite() {
      for j := 0 to |KEYS|
        invariant CheckKeys(attrib, counts, KEYS) == CheckKeys(attrib, counts, KEYS[j..])
      {
        var key := KEYS[j];
        assert KEYS[j..][0] == key && KEYS[j..][1..] == KEYS[j + 1..];
        if key in attrib {
          var value := attrib[key];
          if !IsCountText(value) { return Err(InvalidCounts); }
          if DigitsValue(value) != counts.At(key) { return Err(CountDiffers); }
        }
      }
    }
    if |stack| > 0 {
      var top := stack[|stack| - 1];
      stack := stack[..|stack| - 1] + [Frame(top.tag, top.counts.Plus(counts))];
      return Ok(State(stack, s.nodes, s.totals));
    } else {
      return Ok(State([], s.nodes, counts));
    }
  }

  /**
   The event loop and the two final checks.  `doc` is the document the XML parser is reading:
   the parser delivers its whole event stream, or a prefix of it and then a parse error.
   */
  method ParseJunit(events: seq<Event>, complete: bool, ghost doc: Element) returns (r: Result<Counts, JunitError>)
    requires events <= Events(doc)
    requires complete ==> events == Events(doc)
    ensures r.Ok? <==> complete && Acceptable(doc)
    ensures r.Ok? ==> r.value == CountsOf(doc)
    ensures r.Ok? ==> && r.value.tests == CountTag(doc, TestCase) && r.value.failures == CountTag(doc, Failure)
                      && r.value.errors == CountTag(doc, Error) && r.value.skipped == CountTag(doc, Skipped)
    ensures r.Ok? ==> EachAggregateTrue(doc) && r.value.skipped < r.value.tests
  {
    var state := INITIAL;
    RunDocument(doc);
    assert OpenAfter(events[..0]) == 0;
    assert events[0..] == events;
    for i := 0 to |events|
      invariant OpenAfter(events[..i]) == |state.stack|
      invariant Run(INITIAL, events) == Run(state, events[i..])
    {
      var event := events[i];
      var next;
      match event {
        case Start(tag) =>
          next := OpenElement(state, tag);
        case End(tag, attrib) =>
          PrefixOpen(events, doc, i);
          next := CloseElement(state, tag, attrib);
      }
      assert next == Step(state, event);
      assert events[i..][0] == event && events[i..][1..] == events[i + 1..];
      if next.Err? {
        RejectedPrefix(events, Events(doc));
        return Err(next.error);
      }
      assert events[..i + 1][..i] == events[..i];
      state := next.value;
    }
    assert Run(state, []) == Ok(state);
    if !complete { return Err(Malformed); }
    var totals := state.totals;
    if totals.tests == 0 { return Err(ZeroTests); }
    if totals.tests == totals.skipped { return Err(AllSkipped); }
    AcceptedCounts(doc);
    return Ok(totals);
  }

  lemma AcceptedCounts(doc: Element)
    requires Acceptable(doc)
    ensures EachAggregateTrue(doc) && CountTag(doc, Skipped) < CountTag(doc, TestCase)
  {
    AcceptedReportRanSomething(doc);
    AcceptableExactly(doc);
  }

  /** The whole stream of a document, from the initial state. */
  lemma RunDocument(doc: Element)
    ensures Run(INITIAL, Events(doc)).Ok? <==>
              WellPlaced(doc, None) && Consistent(doc) && Depth(doc) <= MAX_DEPTH && Size(doc) <= MAX_NODES
    ensures Run(INITIAL, Events(doc)).Ok? ==> Run(INITIAL, Events(doc)).value == State([], Size(doc), CountsOf(doc))
  {
    RunTree(INITIAL, doc);
  }

  /** Once a prefix is refused, the whole stream is. */
  lemma RejectedPrefix(prefix: seq<Event>, events: seq<Event>)
    requires prefix <= events && Run(INITIAL, prefix).Err?
    ensures Run(INITIAL, events).Err?
  {
    assert events == prefix + events[|prefix|..];
    RunConcat(INITIAL, prefix, events[|prefix|..]);
  }

  /** The parser never closes an element that is not open. */
  lemma PrefixOpen(events: seq<Event>, doc: Element, i: nat)
    requires events <= Events(doc) && i < |events| && events[i].End?
    ensures OpenAfter(events[..i]) >= 1
  {
    EventsBalanced(doc);
    assert Events(doc)[0].Start?;
    assert events[..i] == Events(doc)[..i];
  }
}
