/**
 * Matchmaking in src/routes/matchmaking.ts: a ticket request names its
 * build, region and playlist in a `bucketId` of `:`-separated pieces, and the
 * server remembers each account's build id, which the later session lookup
 * reports as `buildUniqueId`.
 *
 * JWT verification and signing are foreign calls: the payload a verification
 * yields (`None` when it throws) and the signed token are inputs.
 */
module Matchmaking {
  import opened Wrappers
  import opened Text
  import opened Numbers
  import opened Json

  /** `bucketId.split(":")[i]`; `None` is undefined. */
  function BucketPiece(bucketId: string, i: nat): (r: Option<string>)
    ensures r.Some? ==> ':' !in r.value
  {
    var parts := Split(bucketId, ':');
    if i < |parts| then Some(parts[i]) else None
  }

  /** The build id of a bucket: its first piece, which always exists. */
  function BuildOf(bucketId: string): (r: string)
    ensures ':' !in r
    ensures BucketPiece(bucketId, 0) == Some(r)
  {
    Split(bucketId, ':')[0]
  }

  /** A bucket made of pieces without `:` names its build, region and playlist in pieces 0, 2 and 3. */
  lemma BucketFields(pieces: seq<string>)
    requires |pieces| >= 4
    requires forall i :: 0 <= i < |pieces| ==> ':' !in pieces[i]
    ensures var b := Join(pieces, ':');
      BuildOf(b) == pieces[0] && BucketPiece(b, 2) == Some(pieces[2]) && BucketPiece(b, 3) == Some(pieces[3])
  {
    SplitJoin(pieces, ':');
  }

  /**
   * The account a request acts for: the `Authorization` header with the
   * first "bearer " removed is the token; without a token, when verification
   * throws, or when the payload's `accountId` is falsy, it is "default".
   */
  function AccountOf(authorization: Option<string>, verified: Option<Value>): (a: Value)
    ensures Truthy(a)
  {
    var token := if authorization.Some? then ReplaceFirst(authorization.value, "bearer ", "") else "";
    if token == "" || verified.None? || Nullish(verified.value) then Str("default")
    else Or(Field(verified.value, "accountId").value, Str("default"))
  }

  /** The account is "default" exactly when there is no token, verification fails or the claim is falsy. */
  lemma DefaultAccount(authorization: Option<string>, verified: Option<Value>)
    ensures var token := if authorization.Some? then ReplaceFirst(authorization.value, "bearer ", "") else "";
      var claim := if verified.Some? && !Nullish(verified.value) then Field(verified.value, "accountId").value else Undefined;
      (token == "" || verified.None? || !Truthy(claim) ==> AccountOf(authorization, verified) == Str("default"))
      && (token != "" && verified.Some? && Truthy(claim) ==> AccountOf(authorization, verified) == claim)
  {
  }

  /** `buildUniqueId[accountId] || "0"`: a missing or empty build id reads as "0". */
  function StoredBuild(ids: map<string, string>, key: string): (b: string)
    ensures b != ""
    ensures key !in ids ==> b == "0"
  {
    if key in ids && ids[key] != "" then ids[key] else "0"
  }

  /** After storing `build` for `key`, the lookup for `key` yields it and every other lookup is as before. */
  lemma StoreThenLookup(ids: map<string, string>, key: string, build: string, other: string)
    requires other != key
    ensures StoredBuild(ids[key := build], key) == if build == "" then "0" else build
    ensures StoredBuild(ids[key := build], other) == StoredBuild(ids, other)
  {
  }

  /**
   * The claims handed to `jwt.sign`. For `region`, `playlist` and `key`,
   * `None` marks an undefined field, which the token omits. `version` is
   * the build that the template literal `${ver.build}` renders, so the
   * token always carries it as a string, "NaN" when the build is `None`.
   */
  datatype Claims = Claims(
    region: Option<string>,
    playlist: Option<string>,
    kind: string,
    key: Option<string>,
    bucket: string,
    version: Option<Decimal>,
    accountId: Value)

  /** The ticket answer; its `payload` is the first `.` piece of the signed token. */
  datatype Ticket = Ticket(serviceUrl: string, ticketType: string, payload: string, signature: string)

  /** The claims of a ticket request: the type is "custom", with the key, exactly for a custom key. */
  function TicketClaims(bucketId: string, customKey: Option<string>, build: Option<Decimal>, account: Value): (c: Claims)
    ensures c.kind == "custom" <==> customKey.Some?
    ensures c.kind == "custom" || c.kind == "normal"
    ensures c.key == customKey
    ensures c.bucket == bucketId && c.accountId == account
  {
    Claims(BucketPiece(bucketId, 2), BucketPiece(bucketId, 3),
           if customKey.Some? then "custom" else "normal", customKey, bucketId, build, account)
  }

  /** The answer to a ticket request, given the token `jwt.sign` returned. */
  function TicketAnswer(signed: string): (t: Ticket)
    ensures '.' !in t.payload
  {
    Ticket("ws://127.0.0.1:5555", "mms-player", Split(signed, '.')[0], "account")
  }

  /** The payload handed out is the signed token's header, everything before its first `.`. */
  lemma TicketPayload(header: string, rest: string)
    requires '.' !in header
    ensures TicketAnswer(header + "." + rest).payload == header
  {
    SplitPrefix(header, "." + rest, '.');
    assert header + "." + rest == header + ("." + rest);
    assert Split("." + rest, '.')[0] == "";
  }

  /** The build ids of the accounts that have asked for a ticket. */
  class Matchmaker {
    var buildIds: map<string, string>

    constructor()
      ensures buildIds == map[]
    {
      buildIds := map[];
    }

    /**
     * `GET /fortnite/api/game/v2/matchmakingservice/ticket/player/...`. Without
     * a `bucketId` the request throws before anything is stored.
     */
    method RequestTicket(bucketId: Option<string>, customKey: Option<string>, authorization: Option<string>,
                         verified: Option<Value>, build: Option<Decimal>)
      returns (claims: Option<Claims>)
      modifies this
      ensures bucketId.None? ==> claims.None? && buildIds == old(buildIds)
      ensures bucketId.Some? ==>
        var account := AccountOf(authorization, verified);
        claims == Some(TicketClaims(bucketId.value, customKey, build, account))
        && buildIds == old(buildIds)[ToText(account) := BuildOf(bucketId.value)]
    {
      if bucketId.None? {
        return None;
      }
      var account := AccountOf(authorization, verified);
      buildIds := buildIds[ToText(account) := BuildOf(bucketId.value)];
      claims := Some(TicketClaims(bucketId.value, customKey, build, account));
    }

    /** The `buildUniqueId` that `GET /fortnite/api/matchmaking/session/:sessionId` reports. */
    method SessionBuild(authorization: Option<string>, verified: Option<Value>) returns (b: string)
      ensures b == StoredBuild(buildIds, ToText(AccountOf(authorization, verified)))
    {
      b := StoredBuild(buildIds, ToText(AccountOf(authorization, verified)));
    }
  }
}
