/** The in-memory conversation store of app/services/memory_store.py: one
    append-only log of turns per user, where every access first drops the
    turns older than the time-to-live. The clock is an explicit `now`. */
module MemoryStore {
  import opened Calendar

  datatype Entry = Entry(role: string, content: string, createdAt: Instant)

  /** A turn as handed to the language model: role and content only. */
  datatype Turn = Turn(role: string, content: string)

  datatype Store = Store(ttlHours: int, messages: map<int, seq<Entry>>)

  /** `now - timedelta(hours=ttl_hours)`. */
  function Cutoff(now: Instant, ttlHours: int): Instant {
    now - ttlHours * MicrosPerHour
  }

  /** The entries created at or after `cutoff`, in their original order. */
  function KeepSince(entries: seq<Entry>, cutoff: Instant): (r: seq<Entry>)
    ensures |r| <= |entries|
    ensures forall e :: e in r <==> e in entries && e.createdAt >= cutoff
  {
    if |entries| == 0 then []
    else
      var rest := KeepSince(entries[1..], cutoff);
      assert forall e :: e in entries <==> e == entries[0] || e in entries[1..];
      if entries[0].createdAt >= cutoff then [entries[0]] + rest else rest
  }

  /** Filtering distributes over concatenation: what survives of a log is
      what survives of each part, in order. */
  lemma {:induction false} KeepSinceConcat(a: seq<Entry>, b: seq<Entry>, cutoff: Instant)
    ensures KeepSince(a + b, cutoff) == KeepSince(a, cutoff) + KeepSince(b, cutoff)
    decreases |a|
  {
    if |a| == 0 {
      assert a + b == b;
    } else {
      assert (a + b)[1..] == a[1..] + b;
      KeepSinceConcat(a[1..], b, cutoff);
    }
  }

  /** A log whose entries are all recent enough is kept whole. */
  lemma {:induction false} KeepSinceAllFresh(entries: seq<Entry>, cutoff: Instant)
    requires forall i :: 0 <= i < |entries| ==> entries[i].createdAt >= cutoff
    ensures KeepSince(entries, cutoff) == entries
    decreases |entries|
  {
    if |entries| > 0 {
      KeepSinceAllFresh(entries[1..], cutoff);
    }
  }

  /** Filtering twice with the same cutoff is filtering once. */
  lemma KeepSinceIdempotent(entries: seq<Entry>, cutoff: Instant)
    ensures KeepSince(KeepSince(entries, cutoff), cutoff) == KeepSince(entries, cutoff)
  {
    var kept := KeepSince(entries, cutoff);
    assert forall i :: 0 <= i < |kept| ==> kept[i] in kept;
    KeepSinceAllFresh(kept, cutoff);
  }

  /** The user's log; an unseen user has an empty one. */
  function Log(store: Store, user: int): seq<Entry> {
    if user in store.messages then store.messages[user] else []
  }

  /** Every other user's log is exactly as before; the user's key now exists. */
  predicate OnlyUserTouched(before: Store, after: Store, user: int) {
    && after.ttlHours == before.ttlHours
    && after.messages.Keys == before.messages.Keys + {user}
    && forall u :: u in before.messages && u != user ==> after.messages[u] == before.messages[u]
  }

  /** `_prune_locked`: the user's log keeps exactly its entries no older than
      the time-to-live; every other log is untouched. */
  function Prune(store: Store, user: int, now: Instant): (r: Store)
    ensures OnlyUserTouched(store, r, user)
    ensures forall e :: e in r.messages[user] <==>
      e in Log(store, user) && e.createdAt >= Cutoff(now, store.ttlHours)
    ensures |r.messages[user]| <= |Log(store, user)|
    ensures r.messages[user] == KeepSince(Log(store, user), Cutoff(now, store.ttlHours))
  {
    store.(messages := store.messages[user := KeepSince(Log(store, user), Cutoff(now, store.ttlHours))])
  }

  /** Pruning twice at the same instant is pruning once. */
  lemma PruneIdempotent(store: Store, user: int, now: Instant)
    ensures Prune(Prune(store, user, now), user, now) == Prune(store, user, now)
  {
    KeepSinceIdempotent(Log(store, user), Cutoff(now, store.ttlHours));
  }

  /** `append_message`: one entry stamped `now` goes at the end of the user's
      log, then the log is pruned; the new entry survives iff the time-to-live
      is not negative. */
  function AppendMessage(store: Store, user: int, role: string, content: string, now: Instant): (r: Store)
    ensures OnlyUserTouched(store, r, user)
    ensures r.messages[user] ==
      KeepSince(Log(store, user), Cutoff(now, store.ttlHours))
      + (if store.ttlHours >= 0 then [Entry(role, content, now)] else [])
  {
    var entry := Entry(role, content, now);
    var cutoff := Cutoff(now, store.ttlHours);
    var appended := Log(store, user) + [entry];
    KeepSinceConcat(Log(store, user), [entry], cutoff);
    FreshIffTtlNotNegative(now, store.ttlHours);
    assert KeepSince([entry], cutoff) == (if store.ttlHours >= 0 then [entry] else []);
    store.(messages := store.messages[user := KeepSince(appended, cutoff)])
  }

  /** An entry stamped `now` is older than the cutoff only when the
      time-to-live is negative. */
  lemma FreshIffTtlNotNegative(now: Instant, ttlHours: int)
    ensures now >= Cutoff(now, ttlHours) <==> ttlHours >= 0
  {
    if ttlHours < 0 {
      assert ttlHours * MicrosPerHour <= -MicrosPerHour;
    }
  }

  /** After a prune, two appends at the same instant with a non-negative
      time-to-live leave the surviving entries followed by the two new ones. */
  lemma TwoAppendsAfterPrune(store: Store, user: int, role1: string, content1: string,
                             role2: string, content2: string, now: Instant)
    requires store.ttlHours >= 0
    ensures var pruned := Prune(store, user, now);
            AppendMessage(AppendMessage(pruned, user, role1, content1, now), user, role2, content2, now)
              .messages[user]
            == KeepSince(Log(store, user), Cutoff(now, store.ttlHours))
               + [Entry(role1, content1, now), Entry(role2, content2, now)]
  {
    var cutoff := Cutoff(now, store.ttlHours);
    var kept := KeepSince(Log(store, user), cutoff);
    var first := Entry(role1, content1, now);
    var second := Entry(role2, content2, now);
    var pruned := Prune(store, user, now);
    var once := AppendMessage(pruned, user, role1, content1, now);
    assert Log(once, user) == kept + [first] by {
      assert Log(pruned, user) == kept;
      KeepSinceIdempotent(Log(store, user), cutoff);
    }
    assert KeepSince(kept + [first], cutoff) == kept + [first] by {
      StampedNowIsFresh(kept, first, cutoff, now, store.ttlHours);
    }
    assert (kept + [first]) + [second] == kept + [first, second];
  }

  /** The survivors of a prune followed by an entry stamped `now` all survive
      a second prune at `now`. */
  lemma StampedNowIsFresh(kept: seq<Entry>, e: Entry, cutoff: Instant, now: Instant, ttlHours: int)
    requires ttlHours >= 0 && cutoff == Cutoff(now, ttlHours) && e.createdAt == now
    requires forall x :: x in kept ==> x.createdAt >= cutoff
    ensures KeepSince(kept + [e], cutoff) == kept + [e]
  {
    FreshIffTtlNotNegative(now, ttlHours);
    var all := kept + [e];
    forall i | 0 <= i < |all| ensures all[i].createdAt >= cutoff {
      if i < |kept| {
        assert all[i] == kept[i] && kept[i] in kept;
      }
    }
    KeepSinceAllFresh(all, cutoff);
  }

  /** `{role, content}` of each entry, in order. */
  function AsTurns(entries: seq<Entry>): (r: seq<Turn>)
    ensures |r| == |entries|
    ensures forall i :: 0 <= i < |entries| ==> r[i] == Turn(entries[i].role, entries[i].content)
  {
    seq(|entries|, i requires 0 <= i < |entries| => Turn(entries[i].role, entries[i].content))
  }

  /** `get_recent_history`: prunes the user's log, then returns its turns in
      insertion order, without timestamps. */
  function GetRecentHistory(store: Store, user: int, now: Instant): (r: (Store, seq<Turn>))
    ensures r.0 == Prune(store, user, now)
    ensures OnlyUserTouched(store, r.0, user)
    ensures |r.1| == |r.0.messages[user]|
    ensures forall i :: 0 <= i < |r.1| ==>
      r.1[i] == Turn(r.0.messages[user][i].role, r.0.messages[user][i].content)
      && r.0.messages[user][i].createdAt >= Cutoff(now, store.ttlHours)
      && r.0.messages[user][i] in Log(store, user)
  {
    var pruned := Prune(store, user, now);
    assert forall i :: 0 <= i < |pruned.messages[user]| ==> pruned.messages[user][i] in pruned.messages[user];
    (pruned, AsTurns(pruned.messages[user]))
  }

  /** Reading the history twice at the same instant changes nothing the second time. */
  lemma HistoryReadIsStable(store: Store, user: int, now: Instant)
    ensures var (s1, h1) := GetRecentHistory(store, user, now);
            GetRecentHistory(s1, user, now) == (s1, h1)
  {
    PruneIdempotent(store, user, now);
  }

  /** With a one-hour time-to-live, a turn logged two hours ago is gone from the history. */
  lemma ExpiredTurnIsForgotten(now: Instant)
    ensures GetRecentHistory(Store(1, map[1 := [Entry("user", "old", now - 2 * MicrosPerHour)]]), 1, now).1 == []
  {
  }
}
