/**
 Stateless session tokens (internal/panel/auth.go) and their revocation by epoch
 (internal/panel/portal.go, internal/panel/store.go). The keyed hash is a
 parameter; the base64 wrapping of a token is left out.
 */
module Session {
  import opened Wrappers
  import opened Text
  import opened Traffic
  import opened StoreSpec
  import opened Ledgers

  datatype Claims = Claims(role: string, subject: string, epoch: int)

  /** A keyed hash printed in hexadecimal, so never containing the delimiter. */
  ghost predicate HexMac(mac: (string, string) -> string) {
    forall k, m :: '|' !in mac(k, m)
  }

  function Payload(role: string, subject: string, epoch: int, exp: int): string {
    Join([role, subject, FormatInt(epoch), FormatInt(exp)], "|")
  }

  function Sign(mac: (string, string) -> string, secret: string, c: Claims, exp: int): string {
    Payload(c.role, c.subject, c.epoch, exp) + "|" + mac(secret, Payload(c.role, c.subject, c.epoch, exp))
  }

  function Check(parts: seq<string>, now: int): Option<Claims>
    requires |parts| == 5
  {
    if ParseInt(parts[2]).None? || ParseInt(parts[3]).None? then None
    else if now >= ParseInt(parts[3]).value then None
    else Some(Claims(parts[0], parts[1], ParseInt(parts[2]).value))
  }

  function Verify(mac: (string, string) -> string, secret: string, token: string, now: int): Option<Claims> {
    if |Split(token, "|")| != 5 then None
    else if Split(token, "|")[4] != mac(secret, Join(Split(token, "|")[..4], "|")) then None
    else Check(Split(token, "|"), now)
  }

  /** Values that survive being written between delimiters. */
  predicate Writable(c: Claims, exp: int) {
    && '|' !in c.role && '|' !in c.subject
    && MIN_INT64 <= c.epoch <= MAX_INT64 && MIN_INT64 <= exp <= MAX_INT64
  }

  function Fields(c: Claims, exp: int): seq<string> {
    [c.role, c.subject, FormatInt(c.epoch), FormatInt(exp)]
  }

  lemma FieldsSeparable(c: Claims, exp: int)
    requires Writable(c, exp)
    ensures Separable(Fields(c, exp), "|")
  {
  }

  lemma {:induction false} JoinLast(parts: seq<string>, last: string, sep: string)
    requires parts != []
    ensures Join(parts + [last], sep) == Join(parts, sep) + sep + last
    decreases |parts|
  {
    if |parts| == 1 {
      assert (parts + [last])[1..] == [last];
    } else {
      assert (parts + [last])[1..] == parts[1..] + [last];
      JoinLast(parts[1..], last, sep);
    }
  }

  lemma TokenSplits(mac: (string, string) -> string, secret: string, c: Claims, exp: int)
    requires HexMac(mac) && Writable(c, exp)
    ensures Split(Sign(mac, secret, c, exp), "|") ==
            Fields(c, exp) + [mac(secret, Payload(c.role, c.subject, c.epoch, exp))]
  {
    var sig := mac(secret, Payload(c.role, c.subject, c.epoch, exp));
    FieldsSeparable(c, exp);
    JoinLast(Fields(c, exp), sig, "|");
    SplitJoin(Fields(c, exp) + [sig], "|");
  }

  /** Verifying undoes signing until the token expires. */
  lemma VerifySign(mac: (string, string) -> string, secret: string, c: Claims, exp: int, now: int)
    requires HexMac(mac) && Writable(c, exp)
    ensures Verify(mac, secret, Sign(mac, secret, c, exp), now) == if now < exp then Some(c) else None
  {
    TokenSplits(mac, secret, c, exp);
    ParseFormat(c.epoch);
    ParseFormat(exp);
    assert Split(Sign(mac, secret, c, exp), "|")[..4] == Fields(c, exp);
  }

  /** What is signed determines role, subject, epoch and expiry. */
  lemma PayloadInjective(a: Claims, x: int, b: Claims, y: int)
    requires Writable(a, x) && Writable(b, y)
    requires Payload(a.role, a.subject, a.epoch, x) == Payload(b.role, b.subject, b.epoch, y)
    ensures a == b && x == y
  {
    FieldsSeparable(a, x);
    FieldsSeparable(b, y);
    JoinInjective(Fields(a, x), Fields(b, y), "|");
    assert Fields(a, x)[0] == a.role && Fields(a, x)[1] == a.subject;
    assert Fields(a, x)[2] == FormatInt(b.epoch) && Fields(a, x)[3] == FormatInt(y);
    ParseFormat(a.epoch);
    ParseFormat(b.epoch);
    ParseFormat(x);
    ParseFormat(y);
  }

  /** An accepted token carries the keyed hash of exactly the role, subject, epoch and expiry it is accepted for. */
  lemma AcceptedIsSigned(mac: (string, string) -> string, secret: string, token: string, now: int)
    returns (epochText: string, expText: string)
    requires Verify(mac, secret, token, now).Some?
    ensures var c := Verify(mac, secret, token, now).value;
            var p := Join([c.role, c.subject, epochText, expText], "|");
            && token == p + "|" + mac(secret, p)
            && ParseInt(epochText) == Some(c.epoch)
            && ParseInt(expText).Some? && now < ParseInt(expText).value
  {
    var parts := Split(token, "|");
    epochText, expText := parts[2], parts[3];
    JoinSplit(token, "|");
    assert parts == parts[..4] + [parts[4]];
    JoinLast(parts[..4], parts[4], "|");
    assert parts[..4] == [parts[0], parts[1], parts[2], parts[3]];
  }

  // ---- revocation ----

  const ROLE_USER := "user"

  /** The portal's check of a presented token against the users table. */
  function PortalUser(mac: (string, string) -> string, secret: string, t: Tables, token: string, now: int):
    Option<int> {
    match Verify(mac, secret, token, now)
    case None => None
    case Some(c) =>
      if c.role != ROLE_USER || ParseInt(c.subject).None? then None else Current(t, ParseInt(c.subject).value, c.epoch)
  }

  function Current(t: Tables, id: int, epoch: int): Option<int> {
    if id in t.users && t.users[id].sessionEpoch == epoch then Some(id) else None
  }

  function PortalClaims(id: int, epoch: int): Claims {
    Claims(ROLE_USER, FormatInt(id), epoch)
  }

  lemma PortalDecides(mac: (string, string) -> string, secret: string, t: Tables,
                      id: int, epoch: int, exp: int, now: int)
    requires HexMac(mac)
    requires MIN_INT64 <= id <= MAX_INT64 && MIN_INT64 <= epoch <= MAX_INT64 && MIN_INT64 <= exp <= MAX_INT64
    ensures PortalUser(mac, secret, t, Sign(mac, secret, PortalClaims(id, epoch), exp), now) ==
            if now < exp then Current(t, id, epoch) else None
  {
    ParseFormat(id);
    VerifySign(mac, secret, PortalClaims(id, epoch), exp, now);
  }

  /**
   Whatever token the portal accepts is one signed for role "user" and for that user,
   at its current epoch and not expired: no token of another role passes.
   */
  lemma AcceptedIsUser(mac: (string, string) -> string, secret: string, t: Tables, token: string, now: int, id: int)
    returns (subject: string, epochText: string, expText: string)
    requires PortalUser(mac, secret, t, token, now) == Some(id)
    ensures var p := Join(["user", subject, epochText, expText], "|");
            && token == p + "|" + mac(secret, p)
            && ParseInt(subject) == Some(id) && id in t.users && ParseInt(epochText) == Some(t.users[id].sessionEpoch)
            && ParseInt(expText).Some? && now < ParseInt(expText).value
  {
    var c := Verify(mac, secret, token, now).value;
    subject := c.subject;
    epochText, expText := AcceptedIsSigned(mac, secret, token, now);
  }

  /** The operations that end a user's sessions. */
  predicate Revokes(op: Op, id: int) {
    (op.Bump? || op.RemoveUser?) && op.user == id
  }

  /** The user exists at exactly this epoch. */
  predicate At(t: Tables, id: int, epoch: int) {
    id < t.nextUser && id in t.users && t.users[id].sessionEpoch == epoch
  }

  /** An account has moved past an epoch for good: it is gone, or its epoch is larger. */
  predicate Past(t: Tables, id: int, epoch: int) {
    id < t.nextUser && (id in t.users ==> t.users[id].sessionEpoch > epoch)
  }

  lemma ApplyMovesEpoch(t: Tables, op: Op, id: int, epoch: int)
    requires At(t, id, epoch)
    ensures if Revokes(op, id) then Past(Apply(t, op), id, epoch) else At(Apply(t, op), id, epoch)
  {
    hide AddTo, WithoutRow, WithoutColumn, Taken;
  }

  lemma ApplyStaysPast(t: Tables, op: Op, id: int, epoch: int)
    requires Past(t, id, epoch)
    ensures Past(Apply(t, op), id, epoch)
  {
    hide AddTo, WithoutRow, WithoutColumn, Taken;
  }

  /**
   Epochs only grow and identifiers are never reissued: an account leaves its epoch at the first
   revocation, for good.
   */
  lemma {:induction false} EpochAfter(t: Tables, ops: seq<Op>, id: int, epoch: int)
    requires At(t, id, epoch)
    ensures if exists op :: op in ops && Revokes(op, id)
            then Past(ApplyAll(t, ops), id, epoch) else At(ApplyAll(t, ops), id, epoch)
  {
    hide Apply, Revokes, Past, At;
    if ops != [] {
      var rest, last := ops[..|ops| - 1], ops[|ops| - 1];
      EpochAfter(t, rest, id, epoch);
      assert forall op :: op in ops <==> op in rest || op == last;
      if exists op :: op in rest && Revokes(op, id) {
        ApplyStaysPast(ApplyAll(t, rest), last, id, epoch);
      } else {
        ApplyMovesEpoch(ApplyAll(t, rest), last, id, epoch);
      }
    }
  }

  /**
   A portal token minted for a user of any table is accepted, after any later store
   operations, if and only if it has not expired and none of them bumped that
   user's epoch or deleted it: so a revocation at any later point is final, and
   nothing else ends a session.
   */
  lemma RevokedForGood(mac: (string, string) -> string, secret: string, t: Tables, ops: seq<Op>,
                       id: int, exp: int, now: int)
    requires HexMac(mac) && WellFormed(t) && id in t.users
    requires MIN_INT64 <= id <= MAX_INT64 && MIN_INT64 <= exp <= MAX_INT64
    requires MIN_INT64 <= t.users[id].sessionEpoch <= MAX_INT64
    ensures var token := Sign(mac, secret, PortalClaims(id, t.users[id].sessionEpoch), exp);
            PortalUser(mac, secret, ApplyAll(t, ops), token, now) ==
            if now < exp && !(exists op :: op in ops && Revokes(op, id)) then Some(id) else None
  {
    EpochAfter(t, ops, id, t.users[id].sessionEpoch);
    PortalDecides(mac, secret, ApplyAll(t, ops), id, t.users[id].sessionEpoch, exp, now);
  }
}
