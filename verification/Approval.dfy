/**
 One-time approval tokens (orchestrator/core/approval.py): issue, revoke, consume, and the
 later check of a consumed token.

 Each operation is one database transaction, so a history of the table is a sequence of
 steps by any callers in any order.  HMAC is symbolic: a signature is a value carrying the
 key and the fields it was made from, so equal signatures mean equal key and fields.
 */
module Approval {
  import opened Wrappers

  type TokenId = string

  datatype Expiry = Instant(time: int) | Unreadable(text: string)

  /** The eight values a token binds an approval to. */
  datatype Context = Context(
    action: string, repository: string, taskId: string, headSha: string,
    targetRef: string, argvDigest: string, policyHash: string, planHash: string)

  /** Everything the signature covers. */
  datatype Fields = Fields(
    tokenId: TokenId, context: Context, approvedBy: string, createdAt: int, expiresAt: Expiry,
    keyId: Option<string>, operatorSignature: Option<string>)

  datatype Signature = Hmac(secret: string, signed: Fields) | Foreign(text: string)

  datatype Row = Row(fields: Fields, signature: Signature, consumed: bool, revoked: bool)

  type Table = map<TokenId, Row>

  datatype Identity = Identity(keyFingerprint: string, allowedActions: set<string>, revoked: bool)

  /** What a call sees besides the table: the approver registry and the clock. */
  datatype Env = Env(enforce: bool, configured: bool, approvers: map<string, Identity>, now: int)

  datatype ApprovalError =
    | SchemaRefused | DuplicateId | NotFound | AlreadyConsumed | Revoked | Replay | NotConsumed
    | BadExpiry | Expired | Unauthenticated | UnknownApprover | ApproverRevoked | KeyMismatch
    | ActionNotAllowed | NotConfigured | SignatureMismatch | BindingMismatch(field: string)

  // ---------------------------------------------------------------------------------------
  // Checks
  // ---------------------------------------------------------------------------------------

  predicate IsHex(s: string) { forall i | 0 <= i < |s| :: '0' <= s[i] <= '9' || 'a' <= s[i] <= 'f' }

  /** The schema's patterns for the two optional fields; both exclude the empty text. */
  predicate OptionalFieldsWellFormed(f: Fields) {
    && (f.keyId.Some? ==>
          && 20 <= |f.keyId.value| <= 68 && f.keyId.value[..4] == "key-" && IsHex(f.keyId.value[4..]))
    && (f.operatorSignature.Some? ==> |f.operatorSignature.value| == 64 && IsHex(f.operatorSignature.value))
  }

  function Truthy(s: Option<string>): Option<string> { if s == Some("") then None else s }

  /** The fields as verification rebuilds them from the row: an empty optional counts as absent. */
  function Rebuilt(f: Fields): Fields {
    f.(keyId := Truthy(f.keyId), operatorSignature := Truthy(f.operatorSignature))
  }

  function CheckNotExpired(f: Fields, now: int): Option<ApprovalError> {
    match f.expiresAt
    case Unreadable(_) => Some(BadExpiry)
    case Instant(t) => if now > t then Some(Expired) else None
  }

  function CheckAuthentication(env: Env, f: Fields, action: string): Option<ApprovalError> {
    if !env.enforce then None
    else if Truthy(f.keyId).None? || Truthy(f.operatorSignature).None? then Some(Unauthenticated)
    else if !env.configured then Some(NotConfigured)
    else if f.approvedBy !in env.approvers then Some(UnknownApprover)
    else
      var who := env.approvers[f.approvedBy];
      if who.revoked then Some(ApproverRevoked)
      else if f.keyId.value != who.keyFingerprint then Some(KeyMismatch)
      else if "*" !in who.allowedActions && action !in who.allowedActions then Some(ActionNotAllowed)
      else None
  }

  /** An approver in order: both key fields given, a known key of that approver, not revoked, and the action allowed. */
  ghost predicate Authenticated(env: Env, f: Fields, action: string) {
    env.enforce ==>
      && f.keyId.Some? && |f.keyId.value| > 0 && f.operatorSignature.Some? && |f.operatorSignature.value| > 0
      && env.configured && f.approvedBy in env.approvers
      && !env.approvers[f.approvedBy].revoked && env.approvers[f.approvedBy].keyFingerprint == f.keyId.value
      && exists a :: a in env.approvers[f.approvedBy].allowedActions && (a == action || a == "*")
  }

  lemma AuthenticationExactly(env: Env, f: Fields, action: string)
    ensures CheckAuthentication(env, f, action).None? <==> Authenticated(env, f, action)
  {
    if Authenticated(env, f, action) && env.enforce {
      var a :| a in env.approvers[f.approvedBy].allowedActions && (a == action || a == "*");
    }
  }

  predicate HexDigits(s: string) { forall c | c in s :: c in "0123456789abcdef" }

  /** The schema's patterns: "key-" and 16 to 64 hex digits, and 64 hex digits. */
  lemma OptionalFieldsExactly(f: Fields)
    ensures OptionalFieldsWellFormed(f) <==>
              && (f.keyId.Some? ==> exists h :: f.keyId.value == "key-" + h && 16 <= |h| <= 64 && HexDigits(h))
              && (f.operatorSignature.Some? ==>
                    |f.operatorSignature.value| == 64 && HexDigits(f.operatorSignature.value))
  {
    if f.operatorSignature.Some? { HexIsHex(f.operatorSignature.value); }
    if f.keyId.Some? {
      var id := f.keyId.value;
      if |id| >= 4 {
        HexIsHex(id[4..]);
        assert id == id[..4] + id[4..];
      }
      if h :| id == "key-" + h && 16 <= |h| <= 64 && HexDigits(h) { assert id[..4] == "key-" && id[4..] == h; }
    }
  }

  lemma HexIsHex(s: string)
    ensures IsHex(s) <==> HexDigits(s)
  {
    forall c: char ensures ('0' <= c <= '9' || 'a' <= c <= 'f') <==> c in "0123456789abcdef" { HexChar(c); }
    if HexDigits(s) { forall i | 0 <= i < |s| ensures s[i] in "0123456789abcdef" { assert s[i] in s; } }
  }

  lemma HexChar(c: char)
    ensures ('0' <= c <= '9' || 'a' <= c <= 'f') <==> c in "0123456789abcdef"
  {
    var hex := "0123456789abcdef";
    if '0' <= c <= '9' { assert hex[c as int - '0' as int] == c; }
    if 'a' <= c <= 'f' { assert hex[c as int - 'a' as int + 10] == c; }
  }

  /** A claim about a token: three of the bindings may be left open by the caller. */
  datatype Claim = Claim(
    action: string, repository: string, taskId: string, headSha: string, targetRef: string,
    argvDigest: Option<string>, policyHash: Option<string>, planHash: Option<string>)

  function FullClaim(c: Context): Claim {
    Claim(c.action, c.repository, c.taskId, c.headSha, c.targetRef,
          Some(c.argvDigest), Some(c.policyHash), Some(c.planHash))
  }

  /** Every value the claim supplies is the token's own. */
  predicate Matches(claim: Claim, c: Context) {
    && claim.action == c.action && claim.repository == c.repository && claim.taskId == c.taskId
    && claim.headSha == c.headSha && claim.targetRef == c.targetRef
    && (claim.argvDigest.Some? ==> claim.argvDigest.value == c.argvDigest)
    && (claim.policyHash.Some? ==> claim.policyHash.value == c.policyHash)
    && (claim.planHash.Some? ==> claim.planHash.value == c.planHash)
  }

  /** Signature, then each binding in order; the loop of the source. */
  method VerifySignatureAndBindings(secret: string, row: Row, claim: Claim) returns (e: Option<ApprovalError>)
    ensures e.None? <==> row.signature == Hmac(secret, Rebuilt(row.fields)) && Matches(claim, row.fields.context)
    ensures e == SignatureAndBindings(secret, row, claim)
  {
    if row.signature != Hmac(secret, Rebuilt(row.fields)) { return Some(SignatureMismatch); }
    var bindings := Bindings(row.fields.context, claim);
    for i := 0 to |bindings|
      invariant FirstMismatch(bindings) == FirstMismatch(bindings[i..])
    {
      assert bindings[i..][1..] == bindings[i + 1..];
      if bindings[i].1 != bindings[i].2 { return Some(BindingMismatch(bindings[i].0)); }
    }
    MismatchMeansNoMatch(row.fields.context, claim);
    return None;
  }

  function Supplied(name: string, own: string, claimed: Option<string>): seq<(string, string, string)> {
    if claimed.Some? then [(name, own, claimed.value)] else []
  }

  function Bindings(c: Context, claim: Claim): seq<(string, string, string)> {
    [("action", c.action, claim.action), ("repository", c.repository, claim.repository),
     ("task_id", c.taskId, claim.taskId), ("head_sha", c.headSha, claim.headSha),
     ("target_ref", c.targetRef, claim.targetRef)]
    + Supplied("argv_digest", c.argvDigest, claim.argvDigest)
    + Supplied("policy_hash", c.policyHash, claim.policyHash)
    + Supplied("plan_hash", c.planHash, claim.planHash)
  }

  function FirstMismatch(bindings: seq<(string, string, string)>): Option<ApprovalError> {
    if bindings == [] then None
    else if bindings[0].1 != bindings[0].2 then Some(BindingMismatch(bindings[0].0))
    else FirstMismatch(bindings[1..])
  }

  lemma {:induction false} FirstMismatchConcat(a: seq<(string, string, string)>, b: seq<(string, string, string)>)
    ensures FirstMismatch(a + b) == (if FirstMismatch(a).Some? then FirstMismatch(a) else FirstMismatch(b))
  {
    if a == [] { assert a + b == b; }
    else {
      assert (a + b)[1..] == a[1..] + b;
      FirstMismatchConcat(a[1..], b);
    }
  }

  lemma {:induction false} MismatchSomewhere(bindings: seq<(string, string, string)>)
    ensures FirstMismatch(bindings).None? <==> forall i | 0 <= i < |bindings| :: bindings[i].1 == bindings[i].2
  {
    if bindings != [] {
      assert forall i | 0 <= i < |bindings[1..]| :: bindings[1..][i] == bindings[i + 1];
      MismatchSomewhere(bindings[1..]);
      if FirstMismatch(bindings).None? {
        forall i | 0 <= i < |bindings| ensures bindings[i].1 == bindings[i].2 {
          if i > 0 { assert bindings[1..][i - 1] == bindings[i]; }
        }
      }
    }
  }

  lemma MismatchMeansNoMatch(c: Context, claim: Claim)
    ensures FirstMismatch(Bindings(c, claim)).None? <==> Matches(claim, c)
  {
    var five := [("action", c.action, claim.action), ("repository", c.repository, claim.repository),
                 ("task_id", c.taskId, claim.taskId), ("head_sha", c.headSha, claim.headSha),
                 ("target_ref", c.targetRef, claim.targetRef)];
    var argv := Supplied("argv_digest", c.argvDigest, claim.argvDigest);
    var policy := Supplied("policy_hash", c.policyHash, claim.policyHash);
    var plan := Supplied("plan_hash", c.planHash, claim.planHash);
    FirstMismatchConcat(five, argv);
    FirstMismatchConcat(five + argv, policy);
    FirstMismatchConcat(five + argv + policy, plan);
    MismatchSomewhere(five); MismatchSomewhere(argv); MismatchSomewhere(policy); MismatchSomewhere(plan);
    assert FirstMismatch(five).None? <==>
      c.action == claim.action && c.repository == claim.repository && c.taskId == claim.taskId
      && c.headSha == claim.headSha && c.targetRef == claim.targetRef by {
      assert five[0].1 == c.action && five[1].1 == c.repository && five[2].1 == c.taskId
          && five[3].1 == c.headSha && five[4].1 == c.targetRef;
    }
  }

  function SignatureAndBindings(secret: string, row: Row, claim: Claim): Option<ApprovalError> {
    if row.signature != Hmac(secret, Rebuilt(row.fields)) then Some(SignatureMismatch)
    else FirstMismatch(Bindings(row.fields.context, claim))
  }

  // ---------------------------------------------------------------------------------------
  // The four transactions
  // ---------------------------------------------------------------------------------------

  /** `schemaAccepts` is the schema's verdict on the fields not looked at here. */
  function Issue(secret: string, table: Table, f: Fields, schemaAccepts: bool): Result<Table, ApprovalError> {
    if !schemaAccepts || !OptionalFieldsWellFormed(f) then Err(SchemaRefused)
    else if f.tokenId in table then Err(DuplicateId)
    else Ok(table[f.tokenId := Row(f, Hmac(secret, f), false, false)])
  }

  function Revoke(table: Table, id: TokenId): Result<Table, ApprovalError> {
    if id !in table then Err(NotFound)
    else if table[id].consumed then Err(AlreadyConsumed)
    else Ok(table[id := table[id].(revoked := true)])
  }

  function Consume(secret: string, env: Env, table: Table, id: TokenId, c: Context): Result<Table, ApprovalError> {
    if id !in table then Err(NotFound)
    else
      var row := table[id];
      if row.revoked then Err(Revoked)
      else if row.consumed then Err(Replay)
      else
        var expired := CheckNotExpired(row.fields, env.now);
        var unauthenticated := CheckAuthentication(env, row.fields, c.action);
        var mismatch := SignatureAndBindings(secret, row, FullClaim(c));
        if expired.Some? then Err(expired.value)
        else if unauthenticated.Some? then Err(unauthenticated.value)
        else if mismatch.Some? then Err(mismatch.value)
        else Ok(table[id := row.(consumed := true)])
  }

  function VerifyConsumed(secret: string, env: Env, table: Table, id: TokenId, claim: Claim)
      : Result<Fields, ApprovalError> {
    if id !in table then Err(NotFound)
    else
      var row := table[id];
      if row.revoked then Err(Revoked)
      else if !row.consumed then Err(NotConsumed)
      else
        var unauthenticated := CheckAuthentication(env, row.fields, claim.action);
        var mismatch := SignatureAndBindings(secret, row, claim);
        if unauthenticated.Some? then Err(unauthenticated.value)
        else if mismatch.Some? then Err(mismatch.value)
        else Ok(Rebuilt(row.fields))
  }

  /** The manager object: its table is the database it writes through. */
  class ApprovalManager {
    const secret: string
    var table: Table

    constructor (secret: string)
      ensures this.secret == secret && table == map[]
    {
      this.secret := secret;
      table := map[];
    }

    method IssueToken(f: Fields, schemaAccepts: bool) returns (r: Result<Fields, ApprovalError>)
      modifies this`table
      ensures table == After(secret, old(table), DoIssue(f, schemaAccepts))
      ensures var spec := Issue(secret, old(table), f, schemaAccepts);
              table == (if spec.Ok? then spec.value else old(table)) &&
              r == (if spec.Ok? then Ok(f) else Err(spec.error))
    {
      if !schemaAccepts || !OptionalFieldsWellFormed(f) { return Err(SchemaRefused); }
      var signature := Hmac(secret, f);
      if f.tokenId in table { return Err(DuplicateId); }
      table := table[f.tokenId := Row(f, signature, false, false)];
      return Ok(f);
    }

    method RevokeToken(id: TokenId) returns (e: Option<ApprovalError>)
      modifies this`table
      ensures table == After(secret, old(table), DoRevoke(id))
      ensures var spec := Revoke(old(table), id);
              table == (if spec.Ok? then spec.value else old(table)) &&
              e == (if spec.Ok? then None else Some(spec.error))
    {
      if id !in table { return Some(NotFound); }
      var row := table[id];
      if row.consumed { return Some(AlreadyConsumed); }
      table := table[id := row.(revoked := true)];
      return None;
    }

    method VerifyAndConsumeToken(env: Env, id: TokenId, c: Context) returns (e: Option<ApprovalError>)
      modifies this`table
      ensures table == After(secret, old(table), DoConsume(env, id, c))
      ensures var spec := Consume(secret, env, old(table), id, c);
              table == (if spec.Ok? then spec.value else old(table)) &&
              e == (if spec.Ok? then None else Some(spec.error))
    {
      if id !in table { return Some(NotFound); }
      var row := table[id];
      if row.revoked { return Some(Revoked); }
      if row.consumed { return Some(Replay); }
      e := CheckNotExpired(row.fields, env.now);
      if e.Some? { return; }
      e := CheckAuthentication(env, row.fields, c.action);
      if e.Some? { return; }
      e := VerifySignatureAndBindings(secret, row, FullClaim(c));
      if e.Some? { return; }
      table := table[id := row.(consumed := true)];
    }

    method VerifyConsumedTokenBinding(env: Env, id: TokenId, claim: Claim) returns (r: Result<Fields, ApprovalError>)
      ensures r == VerifyConsumed(secret, env, table, id, claim)
    {
      if id !in table { return Err(NotFound); }
      var row := table[id];
      if row.revoked { return Err(Revoked); }
      if !row.consumed { return Err(NotConsumed); }
      var unauthenticated := CheckAuthentication(env, row.fields, claim.action);
      if unauthenticated.Some? { return Err(unauthenticated.value); }
      var mismatch := VerifySignatureAndBindings(secret, row, claim);
      if mismatch.Some? { return Err(mismatch.value); }
      return Ok(Rebuilt(row.fields));
    }
  }

  // ---------------------------------------------------------------------------------------
  // All interleavings
  // ---------------------------------------------------------------------------------------

  datatype Step =
    | DoIssue(f: Fields, schemaAccepts: bool)
    | DoRevoke(id: TokenId)
    | DoConsume(env: Env, id: TokenId, c: Context)

  function Try(secret: string, table: Table, step: Step): Result<Table, ApprovalError> {
    match step
    case DoIssue(f, ok) => Issue(secret, table, f, ok)
    case DoRevoke(id) => Revoke(table, id)
    case DoConsume(env, id, c) => Consume(secret, env, table, id, c)
  }

  /** A failed transaction is rolled back. */
  function After(secret: string, table: Table, step: Step): Table {
    var r := Try(secret, table, step);
    if r.Ok? then r.value else table
  }

  /** The table after a history that began with no tokens. */
  function Exec(secret: string, history: seq<Step>): Table {
    if history == [] then map[]
    else After(secret, Exec(secret, history[..|history| - 1]), history[|history| - 1])
  }

  /** The i-th transaction of the history committed. */
  predicate Committed(secret: string, history: seq<Step>, i: nat)
    requires i < |history|
  {
    Try(secret, Exec(secret, history[..i]), history[i]).Ok?
  }

  predicate ConsumesAt(secret: string, history: seq<Step>, id: TokenId, i: nat) {
    i < |history| && history[i].DoConsume? && history[i].id == id && Committed(secret, history, i)
  }

  predicate RevokesAt(secret: string, history: seq<Step>, id: TokenId, i: nat) {
    i < |history| && history[i].DoRevoke? && history[i].id == id && Committed(secret, history, i)
  }

  predicate IssuesAt(secret: string, history: seq<Step>, f: Fields, i: nat) {
    i < |history| && history[i].DoIssue? && history[i].f == f && Committed(secret, history, i)
  }

  ghost predicate Genuine(secret: string, id: TokenId, row: Row) {
    && row.fields.tokenId == id && row.signature == Hmac(secret, row.fields)
    && OptionalFieldsWellFormed(row.fields) && !(row.consumed && row.revoked)
  }

  /** No token is ever both consumed and revoked; every stored signature is the manager's own. */
  lemma {:induction false} TableInvariant(secret: string, history: seq<Step>)
    ensures forall id :: id in Exec(secret, history) ==> Genuine(secret, id, Exec(secret, history)[id])
  {
    if history != [] { TableInvariant(secret, history[..|history| - 1]); }
  }

  lemma {:induction false} HistoryExtends(secret: string, history: seq<Step>, n: nat)
    requires n < |history|
    ensures Exec(secret, history[..n + 1]) == After(secret, Exec(secret, history[..n]), history[n])
  {
    assert history[..n + 1][..n] == history[..n];
  }

  /** The only ways one transaction changes one row. */
  lemma StepEffect(secret: string, table: Table, step: Step, id: TokenId)
    ensures var after := After(secret, table, step);
            var committed := Try(secret, table, step).Ok?;
            && (id in after && after[id].consumed <==>
                  (id in table && table[id].consumed) || (step.DoConsume? && step.id == id && committed))
            && (id in after && after[id].revoked <==>
                  (id in table && table[id].revoked) || (step.DoRevoke? && step.id == id && committed))
            && (id in table ==> id in after && after[id].fields == table[id].fields)
            && (id in after && id !in table ==> step.DoIssue? && step.f == after[id].fields && committed)
  {
  }

  /** Commits are the same events whether seen in the history or in a prefix of it. */
  lemma SamePast(secret: string, history: seq<Step>, n: nat, i: nat)
    requires i < n <= |history|
    ensures Committed(secret, history[..n], i) <==> Committed(secret, history, i)
    ensures history[..n][i] == history[i]
  {
    assert history[..n][..i] == history[..i];
  }

  /** A row is marked consumed exactly when some consume of it committed. */
  lemma {:induction false} ConsumedRecordsHistory(secret: string, history: seq<Step>, id: TokenId)
    ensures id in Exec(secret, history) && Exec(secret, history)[id].consumed <==>
            exists i: nat :: ConsumesAt(secret, history, id, i)
  {
    if history != [] {
      var n := |history| - 1;
      ConsumedRecordsHistory(secret, history[..n], id);
      StepEffect(secret, Exec(secret, history[..n]), history[n], id);
      forall i: nat | i < n ensures ConsumesAt(secret, history[..n], id, i) <==> ConsumesAt(secret, history, id, i) {
        SamePast(secret, history, n, i);
      }
      assert ConsumesAt(secret, history, id, n) <==>
        history[n].DoConsume? && history[n].id == id && Committed(secret, history, n);
    }
  }

  /** A row is marked revoked exactly when some revocation of it committed. */
  lemma {:induction false} RevokedRecordsHistory(secret: string, history: seq<Step>, id: TokenId)
    ensures id in Exec(secret, history) && Exec(secret, history)[id].revoked <==>
            exists i: nat :: RevokesAt(secret, history, id, i)
  {
    if history != [] {
      var n := |history| - 1;
      RevokedRecordsHistory(secret, history[..n], id);
      StepEffect(secret, Exec(secret, history[..n]), history[n], id);
      forall i: nat | i < n ensures RevokesAt(secret, history[..n], id, i) <==> RevokesAt(secret, history, id, i) {
        SamePast(secret, history, n, i);
      }
      assert RevokesAt(secret, history, id, n) <==>
        history[n].DoRevoke? && history[n].id == id && Committed(secret, history, n);
    }
  }

  /** Every row was issued, with the fields it still has. */
  lemma {:induction false} RowWasIssued(secret: string, history: seq<Step>, id: TokenId)
    requires id in Exec(secret, history)
    ensures exists i: nat :: IssuesAt(secret, history, Exec(secret, history)[id].fields, i)
  {
    var n := |history| - 1;
    var f := Exec(secret, history)[id].fields;
    StepEffect(secret, Exec(secret, history[..n]), history[n], id);
    if id in Exec(secret, history[..n]) {
      RowWasIssued(secret, history[..n], id);
      var i: nat :| IssuesAt(secret, history[..n], f, i);
      SamePast(secret, history, n, i);
      assert IssuesAt(secret, history, f, i);
    } else {
      assert IssuesAt(secret, history, f, n);
    }
  }

  /** Once consumed, always consumed: a row never loses the mark. */
  lemma {:induction false} ConsumedStays(secret: string, history: seq<Step>, m: nat, id: TokenId)
    requires m <= |history|
    requires id in Exec(secret, history[..m]) && Exec(secret, history[..m])[id].consumed
    ensures id in Exec(secret, history) && Exec(secret, history)[id].consumed
    decreases |history| - m
  {
    if m == |history| {
      assert history[..m] == history;
    } else {
      HistoryExtends(secret, history, m);
      StepEffect(secret, Exec(secret, history[..m]), history[m], id);
      ConsumedStays(secret, history, m + 1, id);
    }
  }

  /** At most one consume of a token ever succeeds, whoever the callers are. */
  lemma ConsumedAtMostOnce(secret: string, history: seq<Step>, id: TokenId, i: nat, j: nat)
    requires ConsumesAt(secret, history, id, i) && ConsumesAt(secret, history, id, j)
    ensures i == j
  {
    if i != j {
      var first, second := if i < j then i else j, if i < j then j else i;
      HistoryExtends(secret, history, first);
      var upto := history[..second];
      assert upto[..first + 1] == history[..first + 1];
      ConsumedStays(secret, upto, first + 1, id);
      assert false;
    }
  }

  /** Consumption and revocation exclude each other in every history. */
  lemma NeverBothConsumedAndRevoked(secret: string, history: seq<Step>, id: TokenId, i: nat, j: nat)
    requires ConsumesAt(secret, history, id, i)
    ensures !RevokesAt(secret, history, id, j)
  {
    if RevokesAt(secret, history, id, j) {
      ConsumedRecordsHistory(secret, history, id);
      RevokedRecordsHistory(secret, history, id);
      TableInvariant(secret, history);
      assert false;
    }
  }

  /**
   A later check passes only for a token that was issued with the claimed values and then
   consumed, once, in the very context it was issued for.
   */
  lemma VerifiedTokenWasConsumed(secret: string, history: seq<Step>, env: Env, id: TokenId, claim: Claim)
    requires VerifyConsumed(secret, env, Exec(secret, history), id, claim).Ok?
    ensures exists f: Fields, i: nat, j: nat ::
              && f.tokenId == id && IssuesAt(secret, history, f, i) && ConsumesAt(secret, history, id, j)
              && Matches(claim, f.context) && history[j].c == f.context
  {
    var table := Exec(secret, history);
    var f := table[id].fields;
    TableInvariant(secret, history);
    RowWasIssued(secret, history, id);
    ConsumedRecordsHistory(secret, history, id);
    var i: nat :| IssuesAt(secret, history, f, i);
    var j: nat :| ConsumesAt(secret, history, id, j);
    MismatchMeansNoMatch(f.context, claim);
    ConsumedContextIsIssued(secret, history, id, j);
  }

  /** Rows keep their fields for ever. */
  lemma {:induction false} FieldsStay(secret: string, history: seq<Step>, m: nat, id: TokenId)
    requires m <= |history| && id in Exec(secret, history[..m])
    ensures id in Exec(secret, history) && Exec(secret, history)[id].fields == Exec(secret, history[..m])[id].fields
    decreases |history| - m
  {
    if m == |history| {
      assert history[..m] == history;
    } else {
      HistoryExtends(secret, history, m);
      StepEffect(secret, Exec(secret, history[..m]), history[m], id);
      FieldsStay(secret, history, m + 1, id);
    }
  }

  lemma ConsumedContextIsIssued(secret: string, history: seq<Step>, id: TokenId, j: nat)
    requires ConsumesAt(secret, history, id, j)
    ensures id in Exec(secret, history) && history[j].c == Exec(secret, history)[id].fields.context
  {
    var at := Exec(secret, history[..j]);
    MismatchMeansNoMatch(at[id].fields.context, FullClaim(history[j].c));
    FieldsStay(secret, history, j, id);
  }

  /** Exactly when a consume succeeds on a token the manager stored. */
  lemma ConsumeSucceedsExactly(secret: string, history: seq<Step>, env: Env, id: TokenId, c: Context)
    requires id in Exec(secret, history)
    ensures var row := Exec(secret, history)[id];
            Consume(secret, env, Exec(secret, history), id, c).Ok? <==>
              && !row.consumed && !row.revoked
              && row.fields.expiresAt.Instant? && env.now <= row.fields.expiresAt.time
              && Authenticated(env, row.fields, c.action)
              && c == row.fields.context
  {
    TableInvariant(secret, history);
    AuthenticationExactly(env, Exec(secret, history)[id].fields, c.action);
    MismatchMeansNoMatch(Exec(secret, history)[id].fields.context, FullClaim(c));
  }

  /** Which refusal a consume gives, in the order of the checks. */
  lemma ConsumeRefusals(secret: string, env: Env, table: Table, id: TokenId, c: Context)
    requires Consume(secret, env, table, id, c).Err?
    ensures var e := Consume(secret, env, table, id, c).error;
            && (e == NotFound <==> id !in table)
            && (id in table ==>
                  var row := table[id];
                  var live := !row.revoked && !row.consumed;
                  var timely := row.fields.expiresAt.Instant? && env.now <= row.fields.expiresAt.time;
                  var known := Authenticated(env, row.fields, c.action);
                  && (e == Revoked <==> row.revoked) && (e == Replay <==> !row.revoked && row.consumed)
                  && (e == BadExpiry <==> live && row.fields.expiresAt.Unreadable?)
                  && (e == Expired <==> live && row.fields.expiresAt.Instant? && env.now > row.fields.expiresAt.time)
                  && (e == SignatureMismatch <==>
                        live && timely && known && row.signature != Hmac(secret, Rebuilt(row.fields)))
                  && (e.BindingMismatch? <==>
                        live && timely && known && row.signature == Hmac(secret, Rebuilt(row.fields))
                        && row.fields.context != c))
  {
    if id in table {
      AuthenticationExactly(env, table[id].fields, c.action);
      MismatchMeansNoMatch(table[id].fields.context, FullClaim(c));
      MismatchIsBinding(Bindings(table[id].fields.context, FullClaim(c)));
    }
  }

  lemma {:induction false} MismatchIsBinding(bindings: seq<(string, string, string)>)
    ensures FirstMismatch(bindings).Some? ==> FirstMismatch(bindings).value.BindingMismatch?
  {
    if bindings != [] { MismatchIsBinding(bindings[1..]); }
  }

  /** Exactly when a token can be issued, and the one row that issuing adds. */
  lemma IssueExactly(secret: string, table: Table, f: Fields, schemaAccepts: bool)
    ensures var r := Issue(secret, table, f, schemaAccepts);
            && (r.Ok? <==> schemaAccepts && OptionalFieldsWellFormed(f) && f.tokenId !in table)
            && (r.Ok? ==> && f.tokenId in r.value && r.value - {f.tokenId} == table
                          && r.value[f.tokenId].fields == f && r.value[f.tokenId].signature == Hmac(secret, f)
                          && !r.value[f.tokenId].consumed && !r.value[f.tokenId].revoked)
  {
    var r := Issue(secret, table, f, schemaAccepts);
    if r.Ok? { assert r.value - {f.tokenId} == table; }
  }

  /** Exactly when a token can be revoked, and all that a revocation changes. */
  lemma RevokeExactly(table: Table, id: TokenId)
    ensures var r := Revoke(table, id);
            && (r.Ok? <==> id in table && !table[id].consumed)
            && (r.Ok? ==> && r.value.Keys == table.Keys && r.value[id].revoked && !r.value[id].consumed
                          && r.value[id].fields == table[id].fields && r.value[id].signature == table[id].signature
                          && forall other | other in table && other != id :: r.value[other] == table[other])
  {
    assert id in table ==> table[id := table[id].(revoked := true)].Keys == table.Keys;
  }

  /** Exactly when the later check passes, and what it gives back. */
  lemma VerifyConsumedExactly(secret: string, env: Env, table: Table, id: TokenId, claim: Claim)
    ensures var r := VerifyConsumed(secret, env, table, id, claim);
            && (r.Ok? <==> && id in table && table[id].consumed && !table[id].revoked
                           && Authenticated(env, table[id].fields, claim.action)
                           && table[id].signature == Hmac(secret, Rebuilt(table[id].fields))
                           && ClaimFits(claim, table[id].fields.context))
            && (r.Ok? ==> r.value.tokenId == table[id].fields.tokenId && r.value.context == table[id].fields.context)
  {
    if id in table {
      AuthenticationExactly(env, table[id].fields, claim.action);
      MismatchMeansNoMatch(table[id].fields.context, claim);
      assert Matches(claim, table[id].fields.context) <==> ClaimFits(claim, table[id].fields.context);
    }
  }

  /** The context is the claimed one wherever the claim says something. */
  predicate ClaimFits(claim: Claim, c: Context) {
    c == Context(claim.action, claim.repository, claim.taskId, claim.headSha, claim.targetRef,
                 if claim.argvDigest == None then c.argvDigest else claim.argvDigest.value,
                 if claim.policyHash == None then c.policyHash else claim.policyHash.value,
                 if claim.planHash == None then c.planHash else claim.planHash.value)
  }

  /**
   The signature is recomputed from fields an empty optional text drops out of.  So a stored
   token re-verifies exactly when no optional field is present and empty, which the schema
   ensures for everything `Issue` lets through.
   */
  lemma SignatureSurvivesStorage(secret: string, f: Fields)
    ensures Hmac(secret, f) == Hmac(secret, Rebuilt(f)) <==> f.keyId != Some("") && f.operatorSignature != Some("")
    ensures OptionalFieldsWellFormed(f) ==> Hmac(secret, f) == Hmac(secret, Rebuilt(f))
  {
  }
}
