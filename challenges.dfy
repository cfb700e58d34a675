/** The in-memory WebAuthn challenge table of the registration route
    (src/app/api/auth/register/route.ts): a module-level `Map` from challenge
    id to the challenge bytes and their expiry, in milliseconds. */
module Challenges {
  import opened Common

  /** `5 * 60 * 1000`: how long an issued challenge stays acceptable (ms). */
  const ChallengeTtl: int := 5 * 60 * 1000

  datatype Challenge = Challenge(challenge: seq<Byte>, expiresAt: int)

  /** An entry is still acceptable at `now` unless `expiresAt < now`: an
      entry that expires exactly now is accepted. */
  predicate Live(c: Challenge, now: int) {
    !(c.expiresAt < now)
  }

  /** What a sweep at `now` keeps: every live entry, unchanged. */
  function Unexpired(m: map<string, Challenge>, now: int): (r: map<string, Challenge>)
    ensures forall k :: k in r <==> k in m && Live(m[k], now)
    ensures forall k :: k in r ==> r[k] == m[k]
  {
    map k | k in m && Live(m[k], now) :: m[k]
  }

  /** Whether a registration at `now` may consume challenge `id`. */
  predicate Accepts(m: map<string, Challenge>, id: string, now: int) {
    id in m && Live(m[id], now)
  }

  /** The table after GET: insert the new challenge, then sweep. */
  function AfterIssue(m: map<string, Challenge>, id: string, bytes: seq<Byte>, now: int): map<string, Challenge>
  {
    Unexpired(m[id := Challenge(bytes, now + ChallengeTtl)], now)
  }

  /** A freshly issued challenge is accepted up to and including five
      minutes after issue, and never afterwards, unless consumed first. */
  lemma IssuedAcceptedForFiveMinutes(m: map<string, Challenge>, id: string, bytes: seq<Byte>, issuedAt: int, now: int)
    ensures Accepts(AfterIssue(m, id, bytes, issuedAt), id, now) <==> now <= issuedAt + 300000
  {
  }

  /** A sweep never brings back an entry and drops nothing live: after GET
      the other ids are accepted at any later time exactly when they were
      before. */
  lemma IssueKeepsOthers(m: map<string, Challenge>, id: string, bytes: seq<Byte>, issuedAt: int, k: string, now: int)
    requires k != id && issuedAt <= now
    ensures Accepts(AfterIssue(m, id, bytes, issuedAt), k, now) <==> Accepts(m, k, now)
  {
    var m' := AfterIssue(m, id, bytes, issuedAt);
    if Accepts(m, k, now) {
      assert m[id := Challenge(bytes, issuedAt + ChallengeTtl)][k] == m[k];
      assert k in m';
    }
  }

  /** Sweeping twice is sweeping at the later time. */
  lemma SweepsCompose(m: map<string, Challenge>, t1: int, t2: int)
    requires t1 <= t2
    ensures Unexpired(Unexpired(m, t1), t2) == Unexpired(m, t2)
  {
  }

  class ChallengeStore {
    var entries: map<string, Challenge>

    constructor ()
      ensures entries == map[]
    {
      entries := map[];
    }

    /** GET: store the challenge for five minutes, then delete every entry
        with `expiresAt < now`. */
    method Issue(id: string, bytes: seq<Byte>, now: int)
      modifies this
      ensures entries == AfterIssue(old(entries), id, bytes, now)
      ensures id in entries && entries[id] == Challenge(bytes, now + 300000)
      ensures forall k :: k in entries ==> Live(entries[k], now)
    {
      entries := entries[id := Challenge(bytes, now + ChallengeTtl)];
      ghost var inserted := entries;
      var pending := entries.Keys;
      while pending != {}
        invariant pending <= inserted.Keys
        invariant forall k :: k in entries <==> k in inserted && (k in pending || Live(inserted[k], now))
        invariant forall k :: k in entries ==> entries[k] == inserted[k]
        decreases pending
      {
        var k :| k in pending;
        if entries[k].expiresAt < now {
          entries := entries - {k};
        }
        pending := pending - {k};
      }
      assert entries == Unexpired(inserted, now);
    }

    /** POST, webauthn branch: look the id up, refuse it when absent or
        expired (leaving the table alone), otherwise delete it and hand back
        its bytes. */
    method Consume(id: string, now: int) returns (c: Option<seq<Byte>>)
      modifies this
      ensures c.Some? <==> Accepts(old(entries), id, now)
      ensures c.None? ==> entries == old(entries)
      ensures c.Some? ==> c.value == old(entries)[id].challenge && entries == old(entries) - {id}
    {
      if id !in entries || entries[id].expiresAt < now {
        return None;
      }
      c := Some(entries[id].challenge);
      entries := entries - {id};
    }
  }

  /** A challenge can be consumed at most once: after a first attempt, a
      second one at the same or a later time is refused. */
  method ConsumeTwice(store: ChallengeStore, id: string, now: int, later: int)
    returns (first: Option<seq<Byte>>, second: Option<seq<Byte>>)
    requires now <= later
    modifies store
    ensures second.None?
    ensures store.entries == if first.Some? then old(store.entries) - {id} else old(store.entries)
  {
    first := store.Consume(id, now);
    second := store.Consume(id, later);
  }
}
