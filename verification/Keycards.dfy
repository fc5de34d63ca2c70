/** Dashboard-issued keycards: how they are issued and revoked, and how a bearer is validated.
    The password hash is ideal: a well-formed hash matches exactly the string it was made from. */
module Keycards {
  import opened Wrappers

  const TOKEN_RAW_PREFIX := "engram_"
  const TOKEN_PREFIX_LEN := 8
  const TOKEN_BODY_LEN := 32
  const TOKEN_TOTAL_LEN := |TOKEN_RAW_PREFIX| + TOKEN_BODY_LEN
  const RANDOM_BYTES := 16

  const ROLE_ADMIN := "admin"
  const READ_WRITE := "read-write"
  const READ_ONLY := "read-only"

  type Byte = b: int | 0 <= b < 256

  predicate IsHex(c: char) {
    '0' <= c <= '9' || 'a' <= c <= 'f' || 'A' <= c <= 'F'
  }

  datatype Hash = HashOf(secret: string) | Unreadable

  datatype Token = Token(id: string, name: string, hash: Hash, prefix: string, scope: string, revoked: bool)

  datatype Source = Master | Client | Session

  datatype Identity = Identity(role: string, source: Source, keycardId: string)

  datatype Verdict =
    | Admitted(who: Identity)
    | EmptyToken
    | InvalidCredentials
    | LookupFailed
    | HashUnreadable
    | UnexpectedScope(id: string, scope: string)

  predicate IsSessionAdmin(who: Identity) {
    who.role == ROLE_ADMIN && who.source == Session
  }

  function AdminIdentity(): Identity {
    Identity(ROLE_ADMIN, Master, "")
  }

  function ClientIdentity(scope: string, id: string): Identity {
    Identity(scope, Client, id)
  }

  predicate IssuableScope(scope: string) {
    scope == READ_WRITE || scope == READ_ONLY
  }

  predicate WellShaped(raw: string) {
    && |raw| == TOKEN_TOTAL_LEN
    && TOKEN_RAW_PREFIX <= raw
    && forall i :: |TOKEN_RAW_PREFIX| <= i < |raw| ==> IsHex(raw[i])
  }

  /** The shape gate, spelled out. */
  lemma WellShapedIff(raw: string)
    ensures WellShaped(raw) <==>
              |raw| == 39 && "engram_" <= raw && forall i :: 7 <= i < 39 ==> raw[i] in "0123456789abcdefABCDEF"
  {
    forall c: char
      ensures IsHex(c) <==> c in "0123456789abcdefABCDEF"
    {
      HexCharIff(c);
    }
  }

  lemma HexCharIff(c: char)
    ensures IsHex(c) <==> c in "0123456789abcdefABCDEF"
  {
    var hex := "0123456789abcdefABCDEF";
    assert forall i: nat :: i < 10 ==> hex[i] == '0' + i as char;
    assert forall i: nat :: 10 <= i < 16 ==> hex[i] == 'a' + (i - 10) as char;
    assert forall i: nat :: 16 <= i < 22 ==> hex[i] == 'A' + (i - 16) as char;
    if '0' <= c <= '9' {
      assert hex[(c - '0') as nat] == c;
    } else if 'a' <= c <= 'f' {
      assert hex[(c - 'a') as nat + 10] == c;
    } else if 'A' <= c <= 'F' {
      assert hex[(c - 'A') as nat + 16] == c;
    }
  }

  function PrefixOf(raw: string): string
    requires |raw| >= |TOKEN_RAW_PREFIX| + TOKEN_PREFIX_LEN
  {
    raw[|TOKEN_RAW_PREFIX|..|TOKEN_RAW_PREFIX| + TOKEN_PREFIX_LEN]
  }

  predicate Candidate(t: Token, prefix: string) {
    t.prefix == prefix && !t.revoked
  }

  // ----- the handlers and the validator -----

  datatype CreateStatus =
    | Created(id: string, token: string, scope: string)
    | Unauthorized | Forbidden | NotReady | BadBody | NameRequired | BadScope | NameTaken | InternalError

  datatype RevokeStatus =
    | Revoked | RevokeUnauthorized | RevokeForbidden | RevokeNotReady | IdRequired | NoSuchToken | RevokeError

  datatype CreateRequest = Unparsable | CreateRequest(name: string, scope: string)

  /** How one write to the database ends; one that fails writes nothing. */
  datatype Write = Done | StatementFails | CommitFails

  /** What a call to issue a keycard meets: whether there is a store yet, the draw of the random source unless
      that fails, whether hashing succeeds, and the fate of the INSERT. */
  datatype Surroundings = Surroundings(ready: bool, random: Option<seq<Byte>>, hashes: bool, write: Write)

  predicate ProperDraw(random: Option<seq<Byte>>) {
    random.Some? ==> |random.value| == RANDOM_BYTES
  }

  class TokenStore {
    var rows: seq<Token>

    constructor ()
      ensures rows == []
    {
      rows := [];
    }

    /** The live tokens under a prefix, in no promised order. */
    method FindByPrefix(prefix: string) returns (found: seq<Token>)
      ensures forall t :: t in found <==> t in rows && Candidate(t, prefix)
    {
      found := [];
      for i := 0 to |rows|
        invariant forall t :: t in found <==> t in rows[..i] && Candidate(t, prefix)
      {
        if Candidate(rows[i], prefix) {
          found := found + [rows[i]];
        }
      }
    }

    method HandleCreateToken(who: Option<Identity>, req: CreateRequest, env: Surroundings, newId: string)
      returns (status: CreateStatus)
      requires ProperDraw(env.random)
      modifies this
      ensures (status, rows) == Create(old(rows), who, req, env, newId)
    {
      if who.None? {
        return Unauthorized;
      }
      if !IsSessionAdmin(who.value) {
        return Forbidden;
      }
      if !env.ready {
        return NotReady;
      }
      if req.Unparsable? {
        return BadBody;
      }
      if req.name == "" {
        return NameRequired;
      }
      var granted := if req.scope == "" then READ_WRITE else req.scope;
      if granted != READ_WRITE && granted != READ_ONLY {
        return BadScope;
      }
      if env.random.None? || !env.hashes {
        return InternalError;
      }
      var raw := TOKEN_RAW_PREFIX + Hex(env.random.value);
      if env.write.StatementFails? {
        return InternalError;
      }
      for i := 0 to |rows|
        invariant rows == old(rows)
        invariant forall t :: t in rows[..i] ==> t.name != req.name
      {
        if rows[i].name == req.name {
          return NameTaken;
        }
      }
      if env.write.CommitFails? {
        return InternalError;
      }
      rows := rows + [Token(newId, req.name, HashOf(raw), PrefixOf(raw), granted, false)];
      return Created(newId, raw, granted);
    }

    /** The handler asks whether a row was affected before it asks for the error. */
    method HandleRevokeToken(who: Option<Identity>, id: string, ready: bool, write: Write) returns (status: RevokeStatus)
      modifies this
      ensures (status, rows) == Revoke(old(rows), who, id, ready, write)
    {
      if who.None? {
        return RevokeUnauthorized;
      }
      if !IsSessionAdmin(who.value) {
        return RevokeForbidden;
      }
      if !ready {
        return RevokeNotReady;
      }
      if id == "" {
        return IdRequired;
      }
      var was := rows;
      var affected := !write.StatementFails? && exists i :: 0 <= i < |was| && was[i].id == id;
      if !affected {
        return NoSuchToken;
      }
      if write.CommitFails? {
        return RevokeError;
      }
      rows := seq(|was|, i requires 0 <= i < |was| => WithRevoked(was[i], id));
      return Revoked;
    }
  }

  class Validator {
    const masterToken: string
    const store: TokenStore?

    constructor (masterToken: string, store: TokenStore?)
      ensures this.masterToken == masterToken && this.store == store
    {
      this.masterToken, this.store := masterToken, store;
    }

    /** `reachable` is false when the store lookup fails. */
    method Validate(raw: string, reachable: bool) returns (v: Verdict)
      ensures Validates(masterToken, if store == null then None else Some(store.rows), reachable, raw, v)
    {
      if raw == "" {
        return EmptyToken;
      }
      if masterToken != "" && raw == masterToken {
        return Admitted(AdminIdentity());
      }
      if !(TOKEN_RAW_PREFIX <= raw) || |raw| != TOKEN_TOTAL_LEN {
        return InvalidCredentials;
      }
      var body := raw[|TOKEN_RAW_PREFIX|..];
      for i := 0 to |body|
        invariant forall j :: |TOKEN_RAW_PREFIX| <= j < |TOKEN_RAW_PREFIX| + i ==> IsHex(raw[j])
      {
        assert body[i] == raw[|TOKEN_RAW_PREFIX| + i];
        if !IsHex(body[i]) {
          return InvalidCredentials;
        }
      }
      var prefix := body[..TOKEN_PREFIX_LEN];
      assert prefix == PrefixOf(raw);
      if store == null {
        return InvalidCredentials;
      }
      if !reachable {
        return LookupFailed;
      }
      var candidates := store.FindByPrefix(prefix);
      for i := 0 to |candidates|
        invariant forall j :: 0 <= j < i ==> candidates[j].hash.HashOf? && candidates[j].hash.secret != raw
      {
        var c := candidates[i];
        assert c in store.rows && Candidate(c, prefix);
        if c.hash.Unreadable? {
          return HashUnreadable;
        }
        if c.hash.secret == raw {
          if c.scope == READ_WRITE || c.scope == READ_ONLY {
            return Admitted(ClientIdentity(c.scope, c.id));
          }
          return UnexpectedScope(c.id, c.scope);
        }
      }
      return InvalidCredentials;
    }
  }

  /** What a verdict says about the table, whatever order the candidates come in. */
  ghost predicate Validates(master: string, rows: Option<seq<Token>>, reachable: bool, raw: string, v: Verdict) {
    if raw == "" then v == EmptyToken
    else if master != "" && raw == master then v == Admitted(AdminIdentity())
    else if !WellShaped(raw) || rows.None? then v == InvalidCredentials
    else if !reachable then v == LookupFailed
    else match v
      case Admitted(who) =>
        exists t :: t in rows.value && Candidate(t, PrefixOf(raw)) && t.hash == HashOf(raw)
                    && IssuableScope(t.scope) && who == ClientIdentity(t.scope, t.id)
      case UnexpectedScope(id, scope) =>
        exists t :: t in rows.value && Candidate(t, PrefixOf(raw)) && t.hash == HashOf(raw)
                    && !IssuableScope(scope) && t.scope == scope && t.id == id
      case HashUnreadable =>
        exists t :: t in rows.value && Candidate(t, PrefixOf(raw)) && t.hash == Unreadable
      case InvalidCredentials =>
        forall t :: t in rows.value && Candidate(t, PrefixOf(raw)) ==> t.hash.HashOf? && t.hash.secret != raw
      case _ => false
  }

  // ----- issuing -----

  const DIGITS := "0123456789abcdef"

  function Hex(bytes: seq<Byte>): (r: string)
    ensures |r| == 2 * |bytes|
    ensures forall c :: c in r ==> IsHex(c)
    ensures forall i :: 0 <= i < |bytes| ==> r[2 * i] == DIGITS[bytes[i] / 16] && r[2 * i + 1] == DIGITS[bytes[i] % 16]
  {
    if bytes == [] then "" else [DIGITS[bytes[0] / 16], DIGITS[bytes[0] % 16]] + Hex(bytes[1..])
  }

  lemma DigitsDiffer(a: nat, b: nat)
    requires a < 16 && b < 16 && DIGITS[a] == DIGITS[b]
    ensures a == b
  {
    assert forall i: nat :: i < 10 ==> DIGITS[i] == '0' + i as char;
    assert forall i: nat :: 10 <= i < 16 ==> DIGITS[i] == 'a' + (i - 10) as char;
  }

  lemma {:induction false} HexIsInjective(a: seq<Byte>, b: seq<Byte>)
    requires |a| == |b| && Hex(a) == Hex(b)
    ensures a == b
  {
    if a != [] {
      var x, y := Hex(a), Hex(b);
      assert x[0] == y[0] && x[1] == y[1];
      DigitsDiffer(a[0] / 16, b[0] / 16);
      DigitsDiffer(a[0] % 16, b[0] % 16);
      assert x[2..] == Hex(a[1..]) && y[2..] == Hex(b[1..]);
      HexIsInjective(a[1..], b[1..]);
      assert a == [a[0]] + a[1..] && b == [b[0]] + b[1..];
    }
  }

  function RawToken(random: seq<Byte>): string {
    TOKEN_RAW_PREFIX + Hex(random)
  }

  function Create(rows: seq<Token>, who: Option<Identity>, req: CreateRequest, env: Surroundings, newId: string)
    : (CreateStatus, seq<Token>)
    requires ProperDraw(env.random)
  {
    if who.None? then (Unauthorized, rows)
    else if !IsSessionAdmin(who.value) then (Forbidden, rows)
    else if !env.ready then (NotReady, rows)
    else if req.Unparsable? then (BadBody, rows)
    else if req.name == "" then (NameRequired, rows)
    else
      var granted := if req.scope == "" then READ_WRITE else req.scope;
      if !IssuableScope(granted) then (BadScope, rows)
      else if env.random.None? || !env.hashes || env.write.StatementFails? then (InternalError, rows)
      else if exists t :: t in rows && t.name == req.name then (NameTaken, rows)
      else if env.write.CommitFails? then (InternalError, rows)
      else
        var raw := RawToken(env.random.value);
        (Created(newId, raw, granted), rows + [Token(newId, req.name, HashOf(raw), PrefixOf(raw), granted, false)])
  }

  /** When a keycard is handed out, and what the answer then says: the scope is the one asked for, or
      read-write if none was, and the token has the body drawn. */
  lemma CreatedIff(rows: seq<Token>, who: Option<Identity>, req: CreateRequest, env: Surroundings, newId: string)
    requires ProperDraw(env.random)
    ensures var status := Create(rows, who, req, env, newId).0;
            && (status.Created? <==>
                  && who.Some? && who.value.role == "admin" && who.value.source == Session
                  && env.ready && env.random.Some? && env.hashes && env.write.Done?
                  && req.CreateRequest? && req.name != "" && req.scope in {"", "read-only", "read-write"}
                  && forall t :: t in rows ==> t.name != req.name)
            && (status.Created? ==>
                  && exists t :: Create(rows, who, req, env, newId).1 == rows + [t]
                       && t.id == newId && t.name == req.name && t.scope == status.scope && !t.revoked)
            && (status.Created? ==>
                  && status.id == newId && status.token == "engram_" + Hex(env.random.value)
                  && status.scope == (if req.scope == "read-only" then "read-only" else "read-write"))
    ensures !Create(rows, who, req, env, newId).0.Created? ==> Create(rows, who, req, env, newId).1 == rows
  {
    if Create(rows, who, req, env, newId).0.Created? {
      var t := Create(rows, who, req, env, newId).1[|rows|];
      assert Create(rows, who, req, env, newId).1 == rows + [t];
    }
  }

  /** What each refusal of an issuance says. */
  lemma RefusalSays(rows: seq<Token>, who: Option<Identity>, req: CreateRequest, env: Surroundings, newId: string)
    requires ProperDraw(env.random)
    ensures var status := Create(rows, who, req, env, newId).0;
            var asked := who.Some? && IsSessionAdmin(who.value) && env.ready && req.CreateRequest?;
            var proper := asked && req.name != "" && req.scope in {"", "read-only", "read-write"};
            && (status == Unauthorized <==> who.None?)
            && (status == Forbidden <==> who.Some? && !(who.value.role == "admin" && who.value.source == Session))
            && (status == NotReady <==> who.Some? && IsSessionAdmin(who.value) && !env.ready)
            && (status == BadBody <==> who.Some? && IsSessionAdmin(who.value) && env.ready && req == Unparsable)
            && (status == NameRequired <==> asked && req.name == "")
            && (status == BadScope <==> asked && req.name != "" && req.scope !in {"", "read-only", "read-write"})
            && (status == NameTaken ==> exists t :: t in rows && t.name == req.name)
            && (status == InternalError ==> proper && !(env.random.Some? && env.hashes && env.write.Done?))
  {
  }

  ghost predicate NamesDiffer(rows: seq<Token>) {
    forall i, j :: 0 <= i < j < |rows| ==> rows[i].name != rows[j].name
  }

  /** No two keycards ever have the same name. */
  lemma {:induction false} NamesStayDifferent(s: State, steps: seq<Step>)
    requires NamesDiffer(s.rows)
    ensures NamesDiffer(Exec(s, steps).rows)
    decreases |steps|
  {
    if steps != [] {
      NamesStayDifferent(Next(s, steps[0]), steps[1..]);
    }
  }

  /** The operator key is admitted as admin, whatever the store says. */
  lemma OperatorKeyIsAdmin(master: string, rows: Option<seq<Token>>, reachable: bool, v: Verdict)
    requires master != "" && Validates(master, rows, reachable, master, v)
    ensures v == Admitted(Identity("admin", Master, ""))
  {
  }

  function WithRevoked(t: Token, id: string): Token {
    if t.id == id then t.(revoked := true) else t
  }

  predicate HasId(rows: seq<Token>, id: string) {
    exists i :: 0 <= i < |rows| && rows[i].id == id
  }

  function Revoke(rows: seq<Token>, who: Option<Identity>, id: string, ready: bool, write: Write)
    : (RevokeStatus, seq<Token>)
  {
    if who.None? then (RevokeUnauthorized, rows)
    else if !IsSessionAdmin(who.value) then (RevokeForbidden, rows)
    else if !ready then (RevokeNotReady, rows)
    else if id == "" then (IdRequired, rows)
    else if write.StatementFails? || !HasId(rows, id) then (NoSuchToken, rows)
    else if write.CommitFails? then (RevokeError, rows)
    else (Revoked, seq(|rows|, i requires 0 <= i < |rows| => WithRevoked(rows[i], id)))
  }

  /** What each answer to a revocation says. */
  lemma RevocationSays(rows: seq<Token>, who: Option<Identity>, id: string, ready: bool, write: Write)
    ensures var status := Revoke(rows, who, id, ready, write).0;
            var asked := who.Some? && who.value.role == "admin" && who.value.source == Session && ready && id != "";
            && (status == Revoked <==> asked && write == Done && HasId(rows, id))
            && (status == RevokeUnauthorized <==> who.None?)
            && (status == RevokeForbidden <==> who.Some? && !(who.value.role == "admin" && who.value.source == Session))
            && (status == NoSuchToken <==> asked && (write == StatementFails || !HasId(rows, id)))
            && (status == RevokeError <==> asked && write == CommitFails && HasId(rows, id))
            && (status == IdRequired ==> id == "") && (status == RevokeNotReady ==> !ready)
            && (status != Revoked ==> Revoke(rows, who, id, ready, write).1 == rows)
  {
  }

  /** "Not found" can be believed, whatever the table, exactly if the UPDATE does not fail: a failed one has
      affected no row, and is answered so too. */
  lemma NotFoundIsTrueIff(write: Write)
    ensures (forall rows, who, id, ready :: Revoke(rows, who, id, ready, write).0 == NoSuchToken ==> !HasId(rows, id))
            <==> write != StatementFails
  {
    if write == StatementFails {
      var t := Token("1", "laptop", HashOf("engram_"), "", READ_ONLY, false);
      assert [t][0].id == "1";
      assert Revoke([t], Some(Identity(ROLE_ADMIN, Session, "")), "1", true, write).0 == NoSuchToken;
    }
  }

  // ----- runs -----

  datatype Step =
    | Issue(who: Option<Identity>, req: CreateRequest, env: Surroundings, newId: string)
    | Withdraw(who: Option<Identity>, id: string, ready: bool, write: Write)

  /** What was handed out, in the order of the rows; `random` is the draw it was made from. */
  datatype Issued = Issued(random: seq<Byte>, token: string, id: string, scope: string)

  datatype State = State(rows: seq<Token>, issued: seq<Issued>)

  /** The random source never repeats a draw and the database never repeats a generated id. */
  predicate FreshDraw(s: State, random: Option<seq<Byte>>, newId: string) {
    ProperDraw(random) && forall i :: 0 <= i < |s.issued| ==> Some(s.issued[i].random) != random && s.issued[i].id != newId
  }

  function Next(s: State, step: Step): State {
    match step
    case Issue(who, req, env, newId) =>
      if !FreshDraw(s, env.random, newId) then s else
        var (status, rows) := Create(s.rows, who, req, env, newId);
        if status.Created? then State(rows, s.issued + [Issued(env.random.value, status.token, status.id, status.scope)])
        else s.(rows := rows)
    case Withdraw(who, id, ready, write) => s.(rows := Revoke(s.rows, who, id, ready, write).1)
  }

  function Exec(s: State, steps: seq<Step>): State
    decreases |steps|
  {
    if steps == [] then s else Exec(Next(s, steps[0]), steps[1..])
  }

  const EMPTY := State([], [])

  ghost predicate Inv(s: State) {
    && |s.rows| == |s.issued|
    && (forall i :: 0 <= i < |s.rows| ==> RowFor(s.rows[i], s.issued[i]))
    && (forall i, j :: 0 <= i < j < |s.issued| ==> s.issued[i].random != s.issued[j].random && s.issued[i].id != s.issued[j].id)
  }

  ghost predicate RowFor(t: Token, c: Issued) {
    && |c.random| == RANDOM_BYTES
    && c.token == RawToken(c.random)
    && t.id == c.id && t.scope == c.scope && IssuableScope(t.scope)
    && t.hash == HashOf(RawToken(c.random)) && t.prefix == PrefixOf(RawToken(c.random))
  }

  /** Every token that issuance can produce passes the validator's shape gate. */
  lemma IssuedTokensAreWellShaped(random: seq<Byte>)
    requires |random| == 16
    ensures WellShaped(RawToken(random)) && PrefixOf(RawToken(random)) == Hex(random)[..8]
  {
    var raw := RawToken(random);
    forall i | |TOKEN_RAW_PREFIX| <= i < |raw|
      ensures IsHex(raw[i])
    {
      assert raw[i] == Hex(random)[i - |TOKEN_RAW_PREFIX|];
    }
  }

  lemma {:induction false} InvHoldsFrom(s: State, steps: seq<Step>)
    requires Inv(s)
    ensures Inv(Exec(s, steps))
    decreases |steps|
  {
    if steps != [] {
      InvHoldsFrom(Next(s, steps[0]), steps[1..]);
    }
  }

  ghost predicate LiveAt(s: State, i: nat, raw: string, id: string, scope: string) {
    i < |s.rows| && i < |s.issued|
    && s.issued[i].token == raw && s.issued[i].id == id && s.issued[i].scope == scope && !s.rows[i].revoked
  }

  ghost predicate LiveKeycard(s: State, raw: string, id: string, scope: string) {
    exists i: nat :: LiveAt(s, i, raw, id, scope)
  }

  lemma LiveIsCandidate(s: State, i: nat, raw: string, id: string, scope: string)
    requires Inv(s) && LiveAt(s, i, raw, id, scope)
    ensures WellShaped(raw) && Candidate(s.rows[i], PrefixOf(raw))
    ensures s.rows[i].hash == HashOf(raw) && s.rows[i].id == id && s.rows[i].scope == scope
  {
    assert RowFor(s.rows[i], s.issued[i]);
    IssuedTokensAreWellShaped(s.issued[i].random);
  }

  /** A candidate row that matches a bearer is the live keycard of that bearer. */
  lemma MatchIsLive(s: State, t: Token, raw: string)
    requires Inv(s) && t in s.rows && !t.revoked && t.hash == HashOf(raw)
    ensures LiveKeycard(s, raw, t.id, t.scope)
  {
    var i :| 0 <= i < |s.rows| && s.rows[i] == t;
    assert RowFor(s.rows[i], s.issued[i]);
    assert LiveAt(s, i, raw, t.id, t.scope);
  }

  lemma LiveKeycardIsUnique(s: State, raw: string, i: nat, id: string, scope: string, j: nat, id': string, scope': string)
    requires Inv(s) && LiveAt(s, i, raw, id, scope) && LiveAt(s, j, raw, id', scope')
    ensures id == id' && scope == scope'
  {
    assert RowFor(s.rows[i], s.issued[i]) && RowFor(s.rows[j], s.issued[j]);
    SameRawSameDraw(s, i, j);
  }

  lemma RowsAreClean(s: State, t: Token)
    requires Inv(s) && t in s.rows
    ensures t.hash.HashOf? && IssuableScope(t.scope)
  {
    var i :| 0 <= i < |s.rows| && s.rows[i] == t;
    assert RowFor(s.rows[i], s.issued[i]);
  }

  // ----- which keycards are revoked, from the calls alone -----

  /** The call revokes the keycards of this id that there are. */
  predicate Withdraws(step: Step, id: string) {
    && step.Withdraw? && step.who.Some? && IsSessionAdmin(step.who.value)
    && step.ready && step.write.Done? && step.id == id && id != ""
  }

  /** Some call after the i-th issue revoked its keycard. */
  ghost predicate Withdrawn(steps: seq<Step>, i: nat)
    requires i < |Exec(EMPTY, steps).issued|
  {
    exists j :: 0 <= j < |steps| && i < |Exec(EMPTY, steps[..j]).issued| && Withdraws(steps[j], Exec(EMPTY, steps).issued[i].id)
  }

  lemma {:induction false} ExecSnoc(s: State, steps: seq<Step>, step: Step)
    ensures Exec(s, steps + [step]) == Next(Exec(s, steps), step)
    decreases |steps|
  {
    if steps == [] {
      assert steps + [step] == [step];
    } else {
      assert (steps + [step])[1..] == steps[1..] + [step];
      ExecSnoc(Next(s, steps[0]), steps[1..], step);
    }
  }

  /** One call issues at most one keycard, live, and revokes those it names and no other. */
  lemma RowStep(s: State, step: Step, i: nat)
    requires Inv(s) && i < |Next(s, step).issued|
    ensures |s.issued| <= |Next(s, step).issued| && |Next(s, step).rows| == |Next(s, step).issued|
    ensures if i < |s.issued| then
              && Next(s, step).issued[i] == s.issued[i]
              && (Next(s, step).rows[i].revoked <==> s.rows[i].revoked || Withdraws(step, s.issued[i].id))
            else
              step.Issue? && !Next(s, step).rows[i].revoked
  {
    if i < |s.issued| {
      assert RowFor(s.rows[i], s.issued[i]);
    }
  }

  lemma WithdrawnSnoc(front: seq<Step>, last: Step, i: nat)
    requires i < |Exec(EMPTY, front + [last]).issued|
    ensures Withdrawn(front + [last], i) <==>
              i < |Exec(EMPTY, front).issued| && (Withdrawn(front, i) || Withdraws(last, Exec(EMPTY, front).issued[i].id))
  {
    var steps := front + [last];
    assert forall j :: 0 <= j <= |front| ==> steps[..j] == front[..j];
    assert front[..|front|] == front;
    InvHoldsFrom(EMPTY, front);
    ExecSnoc(EMPTY, front, last);
    RowStep(Exec(EMPTY, front), last, i);
    if i < |Exec(EMPTY, front).issued| {
      if Withdrawn(front, i) {
        var j :| 0 <= j < |front| && i < |Exec(EMPTY, front[..j]).issued| && Withdraws(front[j], Exec(EMPTY, front).issued[i].id);
        assert steps[j] == front[j] && steps[..j] == front[..j];
      }
      if Withdraws(last, Exec(EMPTY, front).issued[i].id) {
        assert steps[|front|] == last && steps[..|front|] == front;
      }
    } else {
      forall j | 0 <= j < |steps|
        ensures i >= |Exec(EMPTY, steps[..j]).issued|
      {
        IssuedGrows(front[..j], front[j..]);
        assert front == front[..j] + front[j..] && steps[..j] == front[..j];
      }
    }
  }

  lemma {:induction false} IssuedGrows(before: seq<Step>, after: seq<Step>)
    ensures |Exec(EMPTY, before).issued| <= |Exec(EMPTY, before + after).issued|
    decreases |after|
  {
    if after == [] {
      assert before + after == before;
    } else {
      var front, last := after[..|after| - 1], after[|after| - 1];
      IssuedGrows(before, front);
      assert before + after == (before + front) + [last];
      ExecSnoc(EMPTY, before + front, last);
    }
  }

  /** In every run, a keycard's row is revoked exactly if a call that came after its issue named it, was made
      by a session admin and was not kept from the store; whatever happened to other keycards. */
  lemma {:induction false} RevokedIff(steps: seq<Step>, i: nat)
    requires i < |Exec(EMPTY, steps).issued|
    ensures i < |Exec(EMPTY, steps).rows| && (Exec(EMPTY, steps).rows[i].revoked <==> Withdrawn(steps, i))
  {
    if steps != [] {
      var front, last := steps[..|steps| - 1], steps[|steps| - 1];
      assert steps == front + [last];
      InvHoldsFrom(EMPTY, front);
      ExecSnoc(EMPTY, front, last);
      RowStep(Exec(EMPTY, front), last, i);
      WithdrawnSnoc(front, last, i);
      if i < |Exec(EMPTY, front).issued| {
        RevokedIff(front, i);
      }
    }
  }

  /** This token was handed out with this id and scope, and no call has revoked it since. */
  ghost predicate StillValid(steps: seq<Step>, raw: string, id: string, scope: string) {
    exists i: nat :: i < |Exec(EMPTY, steps).issued| && IssuedAs(Exec(EMPTY, steps).issued[i], raw, id, scope) && !Withdrawn(steps, i)
  }

  predicate IssuedAs(c: Issued, raw: string, id: string, scope: string) {
    c.token == raw && c.id == id && c.scope == scope
  }

  lemma StillValidIffLive(steps: seq<Step>, raw: string, id: string, scope: string)
    ensures StillValid(steps, raw, id, scope) <==> LiveKeycard(Exec(EMPTY, steps), raw, id, scope)
  {
    var s := Exec(EMPTY, steps);
    InvHoldsFrom(EMPTY, steps);
    if StillValid(steps, raw, id, scope) {
      var i: nat :| i < |s.issued| && IssuedAs(s.issued[i], raw, id, scope) && !Withdrawn(steps, i);
      RevokedIff(steps, i);
      assert LiveAt(s, i, raw, id, scope);
    }
    if LiveKeycard(s, raw, id, scope) {
      var i: nat :| LiveAt(s, i, raw, id, scope);
      RevokedIff(steps, i);
    }
  }

  /** After any run of issues and revocations, a bearer other than the operator key is admitted as
      keycard `id` with `scope` exactly when that very token was handed out with that id and scope and no
      call has revoked it since; otherwise the only answer is invalid credentials. */
  lemma AdmittedIffIssuedAndLive(steps: seq<Step>, master: string, raw: string, v: Verdict, id: string, scope: string)
    requires raw != "" && raw != master
    requires Validates(master, Some(Exec(EMPTY, steps).rows), true, raw, v)
    ensures v.Admitted? || v == InvalidCredentials
    ensures v.Admitted? ==> v.who.source == Client && IssuableScope(v.who.role)
    ensures v == Admitted(ClientIdentity(scope, id)) <==> StillValid(steps, raw, id, scope)
  {
    InvHoldsFrom(EMPTY, steps);
    VerdictMatchesStore(Exec(EMPTY, steps), master, raw, v, id, scope);
    StillValidIffLive(steps, raw, id, scope);
  }

  /** Without an answer of the store no keycard is admitted, and a store that fails is told from one that has no
      such keycard. */
  lemma VerdictWithoutStore(master: string, rows: Option<seq<Token>>, reachable: bool, raw: string, v: Verdict)
    requires Validates(master, rows, reachable, raw, v) && raw != master && (rows.None? || !reachable)
    ensures v == if raw == "" then EmptyToken else if WellShaped(raw) && rows.Some? then LookupFailed else InvalidCredentials
  {
  }

  lemma VerdictMatchesStore(s: State, master: string, raw: string, v: Verdict, id: string, scope: string)
    requires Inv(s) && raw != "" && raw != master && Validates(master, Some(s.rows), true, raw, v)
    ensures v.Admitted? || v == InvalidCredentials
    ensures v.Admitted? ==> v.who.source == Client && IssuableScope(v.who.role)
    ensures v == Admitted(ClientIdentity(scope, id)) <==> LiveKeycard(s, raw, id, scope)
  {
    if WellShaped(raw) && !v.InvalidCredentials? {
      var t :| t in s.rows && Candidate(t, PrefixOf(raw)) && (t.hash == Unreadable || (t.hash == HashOf(raw) &&
               if v.Admitted? then IssuableScope(t.scope) && v.who == ClientIdentity(t.scope, t.id) else !IssuableScope(t.scope)));
      RowsAreClean(s, t);
      MatchIsLive(s, t, raw);
    }
    if LiveKeycard(s, raw, id, scope) {
      var i: nat :| LiveAt(s, i, raw, id, scope);
      LiveIsCandidate(s, i, raw, id, scope);
      assert s.rows[i] in s.rows;
      if v.Admitted? {
        var j: nat :| LiveAt(s, j, raw, v.who.keycardId, v.who.role);
        LiveKeycardIsUnique(s, raw, i, id, scope, j, v.who.keycardId, v.who.role);
      }
    }
  }

  lemma SameRawSameDraw(s: State, i: nat, j: nat)
    requires Inv(s) && i < |s.rows| && j < |s.rows| && s.rows[i].hash == s.rows[j].hash
    ensures i == j
  {
    assert RowFor(s.rows[i], s.issued[i]) && RowFor(s.rows[j], s.issued[j]);
    var a, b := s.issued[i].random, s.issued[j].random;
    assert RawToken(a)[|TOKEN_RAW_PREFIX|..] == Hex(a) && RawToken(b)[|TOKEN_RAW_PREFIX|..] == Hex(b);
    HexIsInjective(a, b);
  }

  /** A revoked keycard is never admitted again, whatever is issued or revoked afterwards. */
  lemma {:induction false} RevocationIsPermanent(s: State, steps: seq<Step>, i: nat, id: string, scope: string)
    requires Inv(s) && i < |s.rows| && s.rows[i].revoked
    ensures !LiveKeycard(Exec(s, steps), s.issued[i].token, id, scope)
    decreases |steps|
  {
    var raw := s.issued[i].token;
    if steps == [] {
      if LiveKeycard(s, raw, id, scope) {
        var j: nat :| LiveAt(s, j, raw, id, scope);
        assert RowFor(s.rows[i], s.issued[i]) && RowFor(s.rows[j], s.issued[j]);
        SameRawSameDraw(s, i, j);
      }
    } else {
      InvHoldsFrom(s, [steps[0]]);
      assert Exec(s, [steps[0]]) == Exec(Next(s, steps[0]), []);
      RevocationIsPermanent(Next(s, steps[0]), steps[1..], i, id, scope);
    }
  }

  /** From a revocation that is answered so, a keycard is refused for good. */
  lemma RevokedForGood(steps: seq<Step>, i: nat, who: Option<Identity>, ready: bool, write: Write, after: seq<Step>,
                       id: string, scope: string)
    requires var s := Exec(EMPTY, steps);
             i < |s.issued| && Revoke(s.rows, who, s.issued[i].id, ready, write).0 == Revoked
    ensures var s := Exec(EMPTY, steps);
            !LiveKeycard(Exec(Next(s, Withdraw(who, s.issued[i].id, ready, write)), after), s.issued[i].token, id, scope)
  {
    InvHoldsFrom(EMPTY, steps);
    var s := Exec(EMPTY, steps);
    var step := Withdraw(who, s.issued[i].id, ready, write);
    InvHoldsFrom(s, [step]);
    assert Exec(s, [step]) == Exec(Next(s, step), []);
    assert RowFor(s.rows[i], s.issued[i]);
    RevocationIsPermanent(Next(s, step), after, i, id, scope);
  }

  /** No bearer the validator admits passes the gate in front of issuing and revoking, so calls made
      with bearers alone never change the store. */
  lemma {:induction false} BearersCannotIssueOrRevoke(s: State, steps: seq<Step>)
    requires forall step :: step in steps ==>
               step.who.None? || exists master, rows, reachable, raw :: Validates(master, rows, reachable, raw, Admitted(step.who.value))
    ensures Exec(s, steps) == s
    decreases |steps|
  {
    if steps != [] {
      assert steps[0] in steps;
      assert Next(s, steps[0]) == s;
      BearersCannotIssueOrRevoke(s, steps[1..]);
    }
  }
}
