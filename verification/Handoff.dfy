/**
 Receipt of a handed-off packet (orchestrator/core/handoff.py): the output inventory of its
 manifest, and the collection of the files it lists.

 Case mapping, SHA-256, JSON and the XML parser are functions the model is given; the packet
 directory is a function from relative paths to what is there, fixed while it is read.
 */
module Handoff {
  import opened Wrappers
  import Junit
  import Paths

  type Bytes = seq<bv8>

  const MAX_FILE_BYTES: nat := 10 * 1024 * 1024
  const MAX_TOTAL_BYTES: nat := 50 * 1024 * 1024
  const MAX_OUTPUTS: nat := 100

  const PROTECTED := {".git", ".env", "id_rsa", "id_ed25519", "operator.key"}
  const RESERVED := {"CON", "PRN", "AUX", "NUL",
                     "COM1", "COM2", "COM3", "COM4", "COM5", "COM6", "COM7", "COM8", "COM9",
                     "LPT1", "LPT2", "LPT3", "LPT4", "LPT5", "LPT6", "LPT7", "LPT8", "LPT9"}

  /** `str.upper`, `str.lower`, `str.casefold`, and "nothing but white space". */
  datatype Casing =
    Casing(upper: string -> string, lower: string -> string, fold: string -> string, blank: string -> bool)

  /** One output; `wellFormed` is the verdict on its texts, its hash and the types of its fields. */
  datatype Item = Item(path: string, required: bool, size: int, sha: string, version: string, wellFormed: bool)

  datatype Tests = Tests(required: bool, reportPath: string, wellFormed: bool)

  /** `wellFormed` is the verdict on everything outside outputs and tests. */
  datatype Manifest = Manifest(items: seq<Item>, tests: Tests, wellFormed: bool)

  datatype HandoffError =
    | Malformed | UnsafePath(path: string) | DuplicatePath(path: string) | ConflictingPath(path: string)
    | BadItem(path: string)
    | NothingRequired | TooLarge | ReportNotInInventory | InventoryDiffers | WrongVersion(path: string)
    | CannotRead(path: string) | SizeDiffers(path: string) | HashDiffers(path: string) | BadReport | TestsFailed

  // ---------------------------------------------------------------------------------------
  // The inventory
  // ---------------------------------------------------------------------------------------

  function UpToDot(s: string): string { if s == "" || s[0] == '.' then "" else [s[0]] + UpToDot(s[1..]) }

  predicate SafeChar(c: char) { c >= 32 as char && c !in {'\\', ':', '*', '?', '"', '<', '>', '|'} }

  predicate SafePart(k: Casing, part: string) {
    && part != "" && part != "." && part != ".."
    && (forall i | 0 <= i < |part| :: SafeChar(part[i]))
    && part[|part| - 1] != '.' && part[|part| - 1] != ' '
    && UpToDot(k.upper(part)) !in RESERVED
    && k.lower(part) !in PROTECTED && !(".git" <= k.lower(part))
  }

  predicate SafePath(k: Casing, path: string) {
    !k.blank(path) && (forall p | p in Paths.Split(path) :: SafePart(k, p)) && k.lower(path) != "manifest.json"
  }

  predicate ItemOk(k: Casing, item: Item) {
    SafePath(k, item.path) && item.wellFormed && 0 <= item.size <= MAX_FILE_BYTES
  }

  /** `a` is a directory on the way to `b`. */
  predicate Above(a: string, b: string) { a + "/" <= b }

  /** Neither the same path nor one inside the other. */
  predicate Apart(a: string, b: string) { a != b && !Above(a, b) && !Above(b, a) }

  function Total(items: seq<Item>): int {
    if items == [] then 0 else Total(items[..|items| - 1]) + items[|items| - 1].size
  }

  predicate PairwiseApart(k: Casing, items: seq<Item>) {
    forall i, j | 0 <= i < j < |items| :: Apart(k.fold(items[i].path), k.fold(items[j].path))
  }

  predicate SomethingRequired(items: seq<Item>) { exists i :: 0 <= i < |items| && items[i].required }

  predicate InventoryOk(k: Casing, items: seq<Item>) {
    && 0 < |items| <= MAX_OUTPUTS && (forall i | 0 <= i < |items| :: ItemOk(k, items[i]))
    && PairwiseApart(k, items) && SomethingRequired(items) && Total(items) <= MAX_TOTAL_BYTES
  }

  lemma SlashPrefix(a: string, b: string)
    ensures a + "/" <= b + "/" <==> a + "/" <= b || a == b
  {
    if a + "/" <= b + "/" && |a| < |b| {
      assert (b + "/")[..|a| + 1] == b[..|a| + 1];
    }
    if a + "/" <= b + "/" && |a| == |b| {
      assert (a + "/")[..|a|] == a && (b + "/")[..|b|] == b;
    }
  }

  lemma SplitPrefix(a: string, b: string)
    ensures a + "/" <= b + "/" <==> Paths.Split(a) <= Paths.Split(b)
  {
    Paths.SplitTerminated(a);
    Paths.SplitTerminated(b);
    Paths.TerminatedPrefix(Paths.Split(a), Paths.Split(b));
  }

  /** In terms of components: being above is being a proper prefix. */
  lemma AboveIsProperPrefix(a: string, b: string)
    ensures Above(a, b) || a == b <==> Paths.Split(a) <= Paths.Split(b)
  {
    SlashPrefix(a, b);
    SplitPrefix(a, b);
  }

  /** An accepted inventory is the leaves of one file tree, even where case does not matter. */
  lemma InventoryIsAFileTree(k: Casing, items: seq<Item>, i: nat, j: nat)
    requires InventoryOk(k, items) && i < |items| && j < |items| && i != j
    ensures !(Paths.Split(k.fold(items[i].path)) <= Paths.Split(k.fold(items[j].path)))
  {
    AboveIsProperPrefix(k.fold(items[i].path), k.fold(items[j].path));
    if i < j { assert Apart(k.fold(items[i].path), k.fold(items[j].path)); }
    else { assert Apart(k.fold(items[j].path), k.fold(items[i].path)); }
  }

  /** The keys seen so far. */
  function Keys(k: Casing, items: seq<Item>): set<string> { set i | 0 <= i < |items| :: k.fold(items[i].path) }

  lemma OneItemMore(k: Casing, items: seq<Item>, i: nat)
    requires i < |items|
    ensures Total(items[..i + 1]) == Total(items[..i]) + items[i].size
    ensures Keys(k, items[..i + 1]) == Keys(k, items[..i]) + {k.fold(items[i].path)}
    ensures PairwiseApart(k, items[..i + 1]) <==>
              PairwiseApart(k, items[..i]) && forall p | p in Keys(k, items[..i]) :: Apart(p, k.fold(items[i].path))
  {
    assert items[..i + 1][..i] == items[..i];
    assert items[..i + 1] == items[..i] + [items[i]];
    if PairwiseApart(k, items[..i + 1]) {
      forall a, b | 0 <= a < b < i ensures Apart(k.fold(items[..i][a].path), k.fold(items[..i][b].path)) {
        assert Apart(k.fold(items[..i + 1][a].path), k.fold(items[..i + 1][b].path));
      }
      forall p | p in Keys(k, items[..i]) ensures Apart(p, k.fold(items[i].path)) {
        var a :| 0 <= a < i && p == k.fold(items[..i][a].path);
        assert Apart(k.fold(items[..i + 1][a].path), k.fold(items[..i + 1][i].path));
      }
    }
  }

  lemma PrefixesApart(k: Casing, items: seq<Item>, n: nat)
    requires n <= |items| && PairwiseApart(k, items)
    ensures PairwiseApart(k, items[..n])
  {
  }

  /** What the loop knows after a prefix of the inventory. */
  ghost predicate SoFar(k: Casing, items: seq<Item>, paths: set<string>, total: int, required: bool) {
    && paths == Keys(k, items) && total == Total(items) && PairwiseApart(k, items)
    && (forall j | 0 <= j < |items| :: ItemOk(k, items[j])) && (required <==> SomethingRequired(items))
  }

  lemma SoFarGrows(k: Casing, items: seq<Item>, i: nat, paths: set<string>, total: int, required: bool)
    requires i < |items| && SoFar(k, items[..i], paths, total, required)
    requires ItemOk(k, items[i]) && forall p | p in paths :: Apart(p, k.fold(items[i].path))
    ensures SoFar(k, items[..i + 1], paths + {k.fold(items[i].path)}, total + items[i].size,
                  required || items[i].required)
  {
    OneItemMore(k, items, i);
    assert items[..i + 1] == items[..i] + [items[i]];
    if SomethingRequired(items[..i]) {
      var j :| 0 <= j < i && items[..i][j].required;
      assert items[..i + 1][j].required;
    }
    if items[i].required { assert items[..i + 1][i].required; }
  }

  /** A bad item, or a clash with an earlier one, is never mended by what follows. */
  lemma StaysWrong(k: Casing, items: seq<Item>, i: nat)
    requires i < |items| && (!ItemOk(k, items[i]) || !PairwiseApart(k, items[..i + 1]))
    ensures !InventoryOk(k, items)
  {
    if PairwiseApart(k, items) { PrefixesApart(k, items, i + 1); }
  }

  method CheckItem(k: Casing, item: Item, paths: set<string>) returns (e: Option<HandoffError>)
    ensures e.None? <==> ItemOk(k, item) && forall p | p in paths :: Apart(p, k.fold(item.path))
  {
    if !SafePath(k, item.path) { return Some(UnsafePath(item.path)); }
    var key := k.fold(item.path);
    if key in paths { return Some(DuplicatePath(item.path)); }
    if exists p :: p in paths && (p + "/" <= key || key + "/" <= p) { return Some(ConflictingPath(item.path)); }
    if !item.wellFormed || item.size < 0 || item.size > MAX_FILE_BYTES { return Some(BadItem(item.path)); }
    return None;
  }

  /** One pass, comparing each path with those before it. */
  method ValidateInventory(k: Casing, items: seq<Item>) returns (e: Option<HandoffError>)
    ensures e.None? <==> InventoryOk(k, items)
  {
    if |items| == 0 || |items| > MAX_OUTPUTS { return Some(Malformed); }
    var paths: set<string>, total, required := {}, 0, false;
    for i := 0 to |items|
      invariant SoFar(k, items[..i], paths, total, required)
    {
      e := CheckItem(k, items[i], paths);
      OneItemMore(k, items, i);
      if e.Some? {
        StaysWrong(k, items, i);
        return;
      }
      SoFarGrows(k, items, i, paths, total, required);
      paths := paths + {k.fold(items[i].path)};
      total := total + items[i].size;
      required := required || items[i].required;
    }
    assert items[..|items|] == items;
    if !required { return Some(NothingRequired); }
    if total > MAX_TOTAL_BYTES { return Some(TooLarge); }
    return None;
  }

  // ---------------------------------------------------------------------------------------
  // The inventory in plain terms
  // ---------------------------------------------------------------------------------------

  /** The device names of DOS: four words, and two series of nine. */
  predicate DeviceName(name: string) {
    || name == "CON" || name == "PRN" || name == "AUX" || name == "NUL"
    || (|name| == 4 && '1' <= name[3] <= '9'
        && ((name[0] == 'C' && name[1] == 'O' && name[2] == 'M')
            || (name[0] == 'L' && name[1] == 'P' && name[2] == 'T')))
  }

  /** A device, with or without an extension. */
  ghost predicate NamesDevice(name: string) {
    DeviceName(name) || exists n :: 0 <= n < |name| && name[n] == '.' && DeviceName(name[..n])
  }

  /** A control character, or one of those no file name may hold on every system. */
  predicate BadChar(c: char) {
    || (c as int) < 32
    || c == '\\' || c == ':' || c == '*' || c == '?' || c == '"' || c == '<' || c == '>' || c == '|'
  }

  ghost predicate BadPart(k: Casing, part: string) {
    || part == "" || part == "." || part == ".." || part[|part| - 1] == '.' || part[|part| - 1] == ' '
    || (exists i :: 0 <= i < |part| && BadChar(part[i]))
    || NamesDevice(k.upper(part))
    || (|k.lower(part)| >= 4 && k.lower(part)[..4] == ".git")
    || k.lower(part) == ".env" || k.lower(part) == "id_rsa" || k.lower(part) == "id_ed25519"
    || k.lower(part) == "operator.key"
  }

  lemma ReservedExactly(name: string)
    ensures name in RESERVED <==> DeviceName(name)
  {
    if |name| == 4 {
      var c := name[3];
      assert name == [name[0], name[1], name[2], c];
      assert '1' <= c <= '9' <==> c in {'1', '2', '3', '4', '5', '6', '7', '8', '9'};
    }
  }

  lemma {:induction false} UpToDotExactly(s: string)
    ensures UpToDot(s) <= s && '.' !in UpToDot(s)
    ensures |UpToDot(s)| < |s| ==> s[|UpToDot(s)|] == '.'
  {
    if s != "" && s[0] != '.' { UpToDotExactly(s[1..]); }
  }

  lemma DeviceExactly(name: string)
    ensures UpToDot(name) in RESERVED <==> NamesDevice(name)
  {
    var n := |UpToDot(name)|;
    UpToDotExactly(name);
    ReservedExactly(UpToDot(name));
    assert name[..n] == UpToDot(name);
    if n == |name| {
      assert name[..n] == name;
    } else {
      if DeviceName(name) { DeviceHasNoDot(name); }
      if m :| 0 <= m < |name| && name[m] == '.' && DeviceName(name[..m]) {
        DeviceHasNoDot(name[..m]);
        FirstDot(name, n, m);
      }
    }
  }

  lemma DeviceHasNoDot(name: string)
    requires DeviceName(name)
    ensures '.' !in name
  {
    if |name| == 4 { assert name == [name[0], name[1], name[2], name[3]]; }
  }

  lemma FirstDot(s: string, n: nat, m: nat)
    requires n < |s| && m < |s| && s[n] == '.' && s[m] == '.' && '.' !in s[..n] && '.' !in s[..m]
    ensures n == m
  {
    assert forall i | 0 <= i < n :: s[..n][i] == s[i];
    assert forall i | 0 <= i < m :: s[..m][i] == s[i];
  }

  lemma SafePartExactly(k: Casing, part: string)
    ensures SafePart(k, part) <==> !BadPart(k, part)
  {
    DeviceExactly(k.upper(part));
    var lower := k.lower(part);
    assert ".git" <= lower <==> |lower| >= 4 && lower[..4] == ".git";
    assert forall c :: SafeChar(c) <==> !BadChar(c);
    if exists i :: 0 <= i < |part| && BadChar(part[i]) {
      var i :| 0 <= i < |part| && BadChar(part[i]);
      assert !SafeChar(part[i]);
    }
  }

  /** An output path is safe when no component of it, between slashes or the ends, is bad. */
  lemma SafePathExactly(k: Casing, path: string)
    ensures SafePath(k, path) <==>
              && !k.blank(path) && k.lower(path) != "manifest.json"
              && forall part, i | Paths.ComponentAt(path, part, i) :: !BadPart(k, part)
  {
    forall part ensures part in Paths.Split(path) <==> exists i :: Paths.ComponentAt(path, part, i) {
      Paths.SplitExactly(path, part);
    }
    forall part ensures SafePart(k, part) <==> !BadPart(k, part) { SafePartExactly(k, part); }
    if part, i :| Paths.ComponentAt(path, part, i) && BadPart(k, part) { assert part in Paths.Split(path); }
    if part :| part in Paths.Split(path) && !SafePart(k, part) {
      var i :| Paths.ComponentAt(path, part, i);
    }
  }

  /** The declared sizes, added up from the front. */
  function DeclaredBytes(items: seq<Item>): int {
    if items == [] then 0 else items[0].size + DeclaredBytes(items[1..])
  }

  lemma {:induction false} TotalExactly(items: seq<Item>)
    ensures Total(items) == DeclaredBytes(items)
    decreases |items|
  {
    if |items| > 1 {
      var n := |items| - 1;
      TotalExactly(items[..n]);
      TotalExactly(items[1..]);
      TotalExactly(items[1..][..n - 1]);
      assert items[..n][1..] == items[1..][..n - 1];
    }
  }

  /** No folded path is the same as another, or a directory on the way to it. */
  ghost predicate NoneAboveAnother(k: Casing, items: seq<Item>) {
    forall i, j | 0 <= i < |items| && 0 <= j < |items| && i != j ::
      !(Paths.Split(k.fold(items[i].path)) <= Paths.Split(k.fold(items[j].path)))
  }

  lemma ApartExactly(k: Casing, items: seq<Item>)
    ensures PairwiseApart(k, items) <==> NoneAboveAnother(k, items)
  {
    forall a, b
      ensures Apart(a, b) <==> !(Paths.Split(a) <= Paths.Split(b)) && !(Paths.Split(b) <= Paths.Split(a))
    {
      AboveIsProperPrefix(a, b);
      AboveIsProperPrefix(b, a);
    }
  }

  lemma InventoryExactly(k: Casing, items: seq<Item>)
    ensures InventoryOk(k, items) <==>
              && items != [] && |items| <= 100
              && (forall i | 0 <= i < |items| ::
                    SafePath(k, items[i].path) && items[i].wellFormed && 0 <= items[i].size <= 10_485_760)
              && NoneAboveAnother(k, items)
              && (exists i :: 0 <= i < |items| && items[i].required)
              && DeclaredBytes(items) <= 52_428_800
  {
    TotalExactly(items);
    ApartExactly(k, items);
  }

  // ---------------------------------------------------------------------------------------
  // The manifest's tests
  // ---------------------------------------------------------------------------------------

  predicate ReportListed(m: Manifest) {
    m.tests.required ==> && m.tests.wellFormed
                         && exists i ::
                              0 <= i < |m.items| && m.items[i].path == m.tests.reportPath && m.items[i].required
  }

  predicate ManifestOk(k: Casing, m: Manifest) { m.wellFormed && InventoryOk(k, m.items) && ReportListed(m) }

  /** Paths as written are distinct when their folded forms are. */
  lemma PathsDistinct(k: Casing, items: seq<Item>, i: nat, j: nat)
    requires PairwiseApart(k, items) && i < |items| && j < |items| && items[i].path == items[j].path
    ensures i == j
  {
  }

  /** The first output with the report's path must be a required one. */
  method ValidateTests(k: Casing, m: Manifest) returns (e: Option<HandoffError>)
    requires InventoryOk(k, m.items)
    ensures e.None? <==> ReportListed(m)
  {
    if !m.tests.required { return None; }
    if !m.tests.wellFormed { return Some(Malformed); }
    for i := 0 to |m.items|
      invariant forall j | 0 <= j < i :: m.items[j].path != m.tests.reportPath
    {
      if m.items[i].path == m.tests.reportPath {
        if m.items[i].required { return None; }
        forall j | 0 <= j < |m.items| && m.items[j].path == m.tests.reportPath ensures !m.items[j].required {
          PathsDistinct(k, m.items, i, j);
        }
        return Some(ReportNotInInventory);
      }
    }
    return Some(ReportNotInInventory);
  }

  // ---------------------------------------------------------------------------------------
  // Collecting the files
  // ---------------------------------------------------------------------------------------

  /** What is at a path of the packet: nothing, something refused or unreadable, or a regular file. */
  datatype File = Missing | Refused | Content(bytes: Bytes)

  type Packet = string -> File

  datatype Received = Received(path: string, size: nat, sha: string, version: string)

  datatype Receipt = Receipt(received: seq<Received>, missing: seq<string>)

  function ReadFile(packet: Packet, item: Item): Result<Option<Bytes>, HandoffError> {
    match packet(item.path)
    case Missing => if item.required then Err(CannotRead(item.path)) else Ok(None)
    case Refused => Err(CannotRead(item.path))
    case Content(bytes) => if |bytes| <= MAX_FILE_BYTES then Ok(Some(bytes)) else Err(TooLarge)
  }

  /** The trusted version, and either exactly the declared bytes or an optional absence. */
  predicate Collectable(packet: Packet, sha: Bytes -> string, versions: map<string, string>, item: Item) {
    && item.path in versions && versions[item.path] == item.version
    && match packet(item.path)
       case Missing => !item.required
       case Refused => false
       case Content(bytes) => |bytes| <= MAX_FILE_BYTES && |bytes| == item.size && sha(bytes) == item.sha
  }

  /** The inventory's files that are there, in order. */
  function ReceivedOf(packet: Packet, items: seq<Item>): seq<Received> {
    if items == [] then []
    else
      var init, last := items[..|items| - 1], items[|items| - 1];
      ReceivedOf(packet, init) +
      (if packet(last.path).Content? then [Received(last.path, |packet(last.path).bytes|, last.sha, last.version)]
       else [])
  }

  /** And those that are not. */
  function MissingOf(packet: Packet, items: seq<Item>): seq<string> {
    if items == [] then []
    else
      var init, last := items[..|items| - 1], items[|items| - 1];
      MissingOf(packet, init) + (if packet(last.path).Content? then [] else [last.path])
  }

  /** The test report is there, parses, and passes. */
  ghost predicate ReportPasses(packet: Packet, parse: Bytes -> Option<Junit.Element>, m: Manifest) {
    m.tests.required ==>
      && packet(m.tests.reportPath).Content?
      && var doc := parse(packet(m.tests.reportPath).bytes);
         && doc.Some? && Junit.Acceptable(doc.value)
         && Junit.CountsOf(doc.value).failures == 0 && Junit.CountsOf(doc.value).errors == 0
  }

  function PathsOf(items: seq<Item>): set<string> { set i | 0 <= i < |items| :: items[i].path }

  method CollectItem(packet: Packet, sha: Bytes -> string, versions: map<string, string>, item: Item)
      returns (r: Result<Option<Bytes>, HandoffError>)
    requires item.path in versions
    ensures r.Ok? <==> Collectable(packet, sha, versions, item)
    ensures r.Ok? ==> (r.value.Some? <==> packet(item.path).Content?)
    ensures r.Ok? && r.value.Some? ==> r.value.value == packet(item.path).bytes
  {
    if versions[item.path] != item.version { return Err(WrongVersion(item.path)); }
    var content := ReadFile(packet, item);
    if content.Err? { return content; }
    if content.value.None? { return Ok(None); }
    if |content.value.value| != item.size { return Err(SizeDiffers(item.path)); }
    if sha(content.value.value) != item.sha { return Err(HashDiffers(item.path)); }
    return content;
  }

  /** The loop over the inventory. */
  method CollectItems(packet: Packet, sha: Bytes -> string, versions: map<string, string>, items: seq<Item>)
      returns (r: Result<(seq<Received>, map<string, Bytes>), HandoffError>)
    requires forall i | 0 <= i < |items| :: items[i].path in versions
    ensures r.Ok? <==> forall i | 0 <= i < |items| :: Collectable(packet, sha, versions, items[i])
    ensures r.Ok? ==> r.value.0 == ReceivedOf(packet, items)
    ensures r.Ok? ==> forall p :: p in r.value.1 <==> p in PathsOf(items) && packet(p).Content?
    ensures r.Ok? ==> forall p | p in r.value.1 :: r.value.1[p] == packet(p).bytes
  {
    var received: seq<Received>, measured: map<string, Bytes> := [], map[];
    for i := 0 to |items|
      invariant forall j | 0 <= j < i :: Collectable(packet, sha, versions, items[j])
      invariant received == ReceivedOf(packet, items[..i])
      invariant forall p :: p in measured <==> p in PathsOf(items[..i]) && packet(p).Content?
      invariant forall p | p in measured :: measured[p] == packet(p).bytes
    {
      var item := items[i];
      assert items[..i + 1][..i] == items[..i];
      assert PathsOf(items[..i + 1]) == PathsOf(items[..i]) + {item.path} by {
        assert items[..i + 1] == items[..i] + [item];
      }
      var content := CollectItem(packet, sha, versions, item);
      if content.Err? { return Err(content.error); }
      if content.value.Some? {
        measured := measured[item.path := content.value.value];
        received := received + [Received(item.path, |content.value.value|, item.sha, item.version)];
      }
    }
    assert items[..|items|] == items;
    return Ok((received, measured));
  }

  method MissingPaths(packet: Packet, items: seq<Item>, measured: map<string, Bytes>) returns (missing: seq<string>)
    requires forall p :: p in measured <==> p in PathsOf(items) && packet(p).Content?
    ensures missing == MissingOf(packet, items)
  {
    missing := [];
    for i := 0 to |items|
      invariant missing == MissingOf(packet, items[..i])
    {
      assert items[..i + 1][..i] == items[..i];
      assert items[i].path in PathsOf(items);
      if items[i].path !in measured { missing := missing + [items[i].path]; }
    }
    assert items[..|items|] == items;
  }

  /** `trusted`: the manifest has the hash, and the run and attempt ids, of the separate record. */
  method CollectReceipt(k: Casing, sha: Bytes -> string, parse: Bytes -> Option<Junit.Element>, packet: Packet,
                        m: Manifest, trusted: bool, versions: map<string, string>)
      returns (r: Result<Receipt, HandoffError>)
    ensures r.Ok? <==> && trusted && ManifestOk(k, m) && versions.Keys == PathsOf(m.items)
                       && (forall i | 0 <= i < |m.items| :: Collectable(packet, sha, versions, m.items[i]))
                       && ReportPasses(packet, parse, m)
    ensures r.Ok? ==> r.value == Receipt(ReceivedOf(packet, m.items), MissingOf(packet, m.items))
    ensures r.Ok? ==> trusted && m.wellFormed && InventoryOk(k, m.items)
    ensures r.Ok? && m.tests.required ==>
              && m.tests.wellFormed
              && exists i :: 0 <= i < |m.items| && m.items[i].path == m.tests.reportPath && m.items[i].required
  {
    if !trusted || !m.wellFormed { return Err(Malformed); }
    var e := ValidateInventory(k, m.items);
    if e.Some? { return Err(e.value); }
    e := ValidateTests(k, m);
    if e.Some? { return Err(e.value); }
    if versions.Keys != PathsOf(m.items) { return Err(InventoryDiffers); }
    assert forall i | 0 <= i < |m.items| :: m.items[i].path in PathsOf(m.items);
    var collected := CollectItems(packet, sha, versions, m.items);
    if collected.Err? { return Err(collected.error); }
    var (received, measured) := collected.value;
    if m.tests.required {
      ReportIsMeasured(packet, sha, versions, m);
      e := CheckReport(parse, measured[m.tests.reportPath]);
      if e.Some? { return Err(e.value); }
    }
    var missing := MissingPaths(packet, m.items, measured);
    return Ok(Receipt(received, missing));
  }

  /** The lookup of the report among the measured bytes cannot miss. */
  lemma ReportIsMeasured(packet: Packet, sha: Bytes -> string, versions: map<string, string>, m: Manifest)
    requires m.tests.required && ReportListed(m)
    requires forall i | 0 <= i < |m.items| :: Collectable(packet, sha, versions, m.items[i])
    ensures m.tests.reportPath in PathsOf(m.items) && packet(m.tests.reportPath).Content?
  {
    var i :| 0 <= i < |m.items| && m.items[i].path == m.tests.reportPath && m.items[i].required;
    assert Collectable(packet, sha, versions, m.items[i]);
  }

  method CheckReport(parse: Bytes -> Option<Junit.Element>, report: Bytes) returns (e: Option<HandoffError>)
    ensures e.None? <==> && parse(report).Some? && Junit.Acceptable(parse(report).value)
                         && Junit.CountsOf(parse(report).value).failures == 0
                         && Junit.CountsOf(parse(report).value).errors == 0
  {
    var doc := parse(report);
    if doc.None? { return Some(BadReport); }
    var counts := Junit.ParseJunit(Junit.Events(doc.value), true, doc.value);
    if counts.Err? { return Some(BadReport); }
    if counts.value.failures != 0 || counts.value.errors != 0 { return Some(TestsFailed); }
    return None;
  }

  // ---------------------------------------------------------------------------------------
  // What a receipt means
  // ---------------------------------------------------------------------------------------

  function ItemPaths(items: seq<Item>): seq<string> {
    if items == [] then [] else ItemPaths(items[..|items| - 1]) + [items[|items| - 1].path]
  }

  function ReceivedPaths(rs: seq<Received>): seq<string> {
    if rs == [] then [] else ReceivedPaths(rs[..|rs| - 1]) + [rs[|rs| - 1].path]
  }

  /** The paths with a file at them, or those without, in the order given. */
  function Kept(packet: Packet, paths: seq<string>, there: bool): seq<string> {
    if paths == [] then []
    else
      var last := paths[|paths| - 1];
      Kept(packet, paths[..|paths| - 1], there) + (if packet(last).Content? == there then [last] else [])
  }

  lemma KeptSnoc(packet: Packet, paths: seq<string>, p: string, there: bool)
    ensures Kept(packet, paths + [p], there) == Kept(packet, paths, there)
              + (if packet(p).Content? == there then [p] else [])
  {
    assert (paths + [p])[..|paths|] == paths;
  }

  lemma ReceivedStep(packet: Packet, items: seq<Item>)
    requires items != []
    ensures var init, last := items[..|items| - 1], items[|items| - 1];
            ReceivedPaths(ReceivedOf(packet, items)) ==
            ReceivedPaths(ReceivedOf(packet, init)) + (if packet(last.path).Content? then [last.path] else [])
  {
    var init, last := items[..|items| - 1], items[|items| - 1];
    if packet(last.path).Content? {
      var rs := ReceivedOf(packet, init);
      var more := rs + [Received(last.path, |packet(last.path).bytes|, last.sha, last.version)];
      assert more[..|rs|] == rs;
    } else {
      assert ReceivedOf(packet, items) == ReceivedOf(packet, init);
    }
  }

  lemma PathsSnoc(items: seq<Item>)
    requires items != []
    ensures PathsOf(items) == PathsOf(items[..|items| - 1]) + {items[|items| - 1].path}
  {
    assert items == items[..|items| - 1] + [items[|items| - 1]];
  }

  lemma InSnoc(s: seq<string>, x: string, p: string)
    ensures p in s + [x] <==> p in s || p == x
  {
  }

  /** A received path is one of the inventory's with a file at it. */
  lemma {:induction false} ReceivedComeFromInventory(packet: Packet, items: seq<Item>, p: string)
    ensures p in ReceivedPaths(ReceivedOf(packet, items)) <==> p in PathsOf(items) && packet(p).Content?
  {
    if items != [] {
      var init, last := items[..|items| - 1], items[|items| - 1];
      ReceivedComeFromInventory(packet, init, p);
      ReceivedStep(packet, items);
      PathsSnoc(items);
      InSnoc(ReceivedPaths(ReceivedOf(packet, init)), last.path, p);
    }
  }

  lemma {:induction false} ReceiptKeepsOrder(packet: Packet, items: seq<Item>)
    ensures ReceivedPaths(ReceivedOf(packet, items)) == Kept(packet, ItemPaths(items), true)
    ensures MissingOf(packet, items) == Kept(packet, ItemPaths(items), false)
  {
    if items != [] {
      var init, last := items[..|items| - 1], items[|items| - 1];
      ReceiptKeepsOrder(packet, init);
      ReceivedStep(packet, items);
      KeptSnoc(packet, ItemPaths(init), last.path, true);
      KeptSnoc(packet, ItemPaths(init), last.path, false);
    }
  }

  lemma {:induction false} KeptOrDropped(packet: Packet, paths: seq<string>)
    ensures multiset(Kept(packet, paths, true)) + multiset(Kept(packet, paths, false)) == multiset(paths)
  {
    if paths != [] {
      var init, last := paths[..|paths| - 1], paths[|paths| - 1];
      KeptOrDropped(packet, init);
      assert paths == init + [last];
    }
  }

  lemma {:induction false} PathsOnce(k: Casing, items: seq<Item>, p: string)
    requires PairwiseApart(k, items)
    ensures multiset(ItemPaths(items))[p] == if p in PathsOf(items) then 1 else 0
  {
    if items != [] {
      var init, last := items[..|items| - 1], items[|items| - 1];
      assert items == init + [last];
      assert PairwiseApart(k, init) by { PrefixesApart(k, items, |items| - 1); }
      PathsOnce(k, init, p);
      assert PathsOf(items) == PathsOf(init) + {last.path};
      forall i | 0 <= i < |init| ensures init[i].path != last.path {
        assert Apart(k.fold(items[i].path), k.fold(items[|items| - 1].path));
      }
    }
  }

  /** Received and missing together are the inventory: in its order, every path once, on one side. */
  lemma ReceiptPartitionsInventory(k: Casing, packet: Packet, items: seq<Item>, p: string)
    requires PairwiseApart(k, items)
    ensures var received, missing := ReceivedPaths(ReceivedOf(packet, items)), MissingOf(packet, items);
            && received == Kept(packet, ItemPaths(items), true) && missing == Kept(packet, ItemPaths(items), false)
            && multiset(received) + multiset(missing) == multiset(ItemPaths(items))
            && multiset(received)[p] + multiset(missing)[p] == if p in PathsOf(items) then 1 else 0
  {
    ReceiptKeepsOrder(packet, items);
    KeptOrDropped(packet, ItemPaths(items));
    PathsOnce(k, items, p);
    var received, missing := ReceivedPaths(ReceivedOf(packet, items)), MissingOf(packet, items);
    assert (multiset(received) + multiset(missing))[p] == multiset(ItemPaths(items))[p];
  }

  /** Each entry of a receipt is an output of the inventory, and says what was measured of the bytes at its path. */
  lemma {:induction false} ReceivedAsMeasured(packet: Packet, sha: Bytes -> string, versions: map<string, string>,
                                              items: seq<Item>, entry: Received)
    requires forall i | 0 <= i < |items| :: Collectable(packet, sha, versions, items[i])
    requires entry in ReceivedOf(packet, items)
    ensures exists i :: 0 <= i < |items| && items[i].path == entry.path
    ensures packet(entry.path).Content? && |packet(entry.path).bytes| == entry.size <= 10_485_760
    ensures sha(packet(entry.path).bytes) == entry.sha
    ensures entry.path in versions && versions[entry.path] == entry.version
  {
    var init, last := items[..|items| - 1], items[|items| - 1];
    if entry in ReceivedOf(packet, init) {
      ReceivedAsMeasured(packet, sha, versions, init, entry);
      var i :| 0 <= i < |init| && init[i].path == entry.path;
      assert items[i].path == entry.path;
    } else {
      assert Collectable(packet, sha, versions, last);
    }
  }

  /** When one output can be collected: its trusted version, and its declared bytes or an optional absence. */
  lemma CollectableExactly(packet: Packet, sha: Bytes -> string, versions: map<string, string>, item: Item)
    ensures Collectable(packet, sha, versions, item) <==>
              && item.path in versions && versions[item.path] == item.version && !packet(item.path).Refused?
              && (packet(item.path).Missing? ==> !item.required)
              && (packet(item.path).Content? ==>
                    && |packet(item.path).bytes| == item.size && item.size <= 10_485_760
                    && sha(packet(item.path).bytes) == item.sha)
  {
  }

  /**
   A receipt with required tests: every required file is in it with the bytes the manifest
   declares, and the report among them holds a test that ran and passed.
   */
  lemma ReceiptMeansTestsPassed(k: Casing, sha: Bytes -> string, parse: Bytes -> Option<Junit.Element>, packet: Packet,
                                m: Manifest, versions: map<string, string>, i: nat)
    requires ManifestOk(k, m) && ReportPasses(packet, parse, m) && m.tests.required
    requires forall j | 0 <= j < |m.items| :: Collectable(packet, sha, versions, m.items[j])
    requires i < |m.items| && m.items[i].required
    ensures m.items[i].path in ReceivedPaths(ReceivedOf(packet, m.items))
    ensures packet(m.items[i].path).Content? && sha(packet(m.items[i].path).bytes) == m.items[i].sha
    ensures m.tests.reportPath in ReceivedPaths(ReceivedOf(packet, m.items))
    ensures exists doc ::
              && parse(packet(m.tests.reportPath).bytes) == Some(doc)
              && Junit.CountTag(doc, Junit.Failure) == 0 && Junit.CountTag(doc, Junit.Error) == 0
    ensures exists doc, c ::
              && parse(packet(m.tests.reportPath).bytes) == Some(doc) && Junit.Within(c, doc) && c.tag.TestCase?
                             && Junit.CountTag(c, Junit.Skipped) == 0 && Junit.CountTag(c, Junit.Failure) == 0
                             && Junit.CountTag(c, Junit.Error) == 0
  {
    assert Collectable(packet, sha, versions, m.items[i]);
    assert m.items[i].path in PathsOf(m.items);
    ReceivedComeFromInventory(packet, m.items, m.items[i].path);
    ReportIsMeasured(packet, sha, versions, m);
    ReceivedComeFromInventory(packet, m.items, m.tests.reportPath);
    var doc := parse(packet(m.tests.reportPath).bytes).value;
    Junit.CleanReportPassedSomething(doc);
    var c :| Junit.Within(c, doc) && c.tag.TestCase?
             && Junit.CountTag(c, Junit.Skipped) == 0
             && Junit.CountTag(c, Junit.Failure) == 0 && Junit.CountTag(c, Junit.Error) == 0;
  }
}
