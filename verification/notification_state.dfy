/**
 * The client-side notification list with its unread counter, as the React
 * notification context keeps it: a newest-first list of entries plus a
 * counter that every operation adjusts by a rule of its own instead of
 * recounting.
 */
module NotificationState {
  import opened Wrappers
  import Seqs

  /**
   * What a real-time handler passes to `addNotification`. Besides the four
   * wire fields it may carry any of the fields the context generates, which
   * the object spread lets through (`id`) or overrides (`read`, `timestamp`).
   */
  datatype Payload = Payload(
    id: Option<int>,
    title: string,
    message: string,
    kind: string,
    time: string,
    read: Option<bool>,
    timestamp: Option<int>)

  /** One notification of the list; `timestamp` is the client clock in milliseconds. */
  datatype Entry = Entry(id: int, title: string, message: string, kind: string, time: string, read: bool, timestamp: int)

  /** The context's two pieces of state. `unreadCount` is floored at 0 by every decrement. */
  datatype State = State(entries: seq<Entry>, unreadCount: nat)

  const Initial := State([], 0)

  /** The number of unread entries: the value `unreadCount` is meant to track. */
  function UnreadIn(es: seq<Entry>): nat {
    if es == [] then 0 else (if es[0].read then 0 else 1) + UnreadIn(es[1..])
  }

  /** The number of unread entries carrying `id`. */
  function UnreadWithId(es: seq<Entry>, id: int): nat {
    if es == [] then 0 else (if !es[0].read && es[0].id == id then 1 else 0) + UnreadWithId(es[1..], id)
  }

  predicate UniqueIds(es: seq<Entry>) {
    forall i, j :: 0 <= i < j < |es| ==> es[i].id != es[j].id
  }

  predicate HasId(es: seq<Entry>, id: int) {
    exists i :: 0 <= i < |es| && es[i].id == id
  }

  predicate HasUnreadId(es: seq<Entry>, id: int) {
    exists i :: 0 <= i < |es| && es[i].id == id && !es[i].read
  }

  /** The counter equals the true number of unread entries. */
  predicate Exact(s: State) {
    s.unreadCount == UnreadIn(s.entries)
  }

  /** Ids are distinct and the counter never exceeds the true number of unread entries. */
  predicate Sound(s: State) {
    UniqueIds(s.entries) && s.unreadCount <= UnreadIn(s.entries)
  }

  /** The entry `addNotification` builds: generated id unless the payload brings one, unread, stamped now. */
  function NewEntry(p: Payload, generatedId: int, now: int): (e: Entry)
    ensures !e.read && e.timestamp == now
    ensures e.id == (if p.id.Some? then p.id.value else generatedId)
    ensures e.title == p.title && e.message == p.message && e.kind == p.kind && e.time == p.time
  {
    Entry(p.id.GetOr(generatedId), p.title, p.message, p.kind, p.time, false, now)
  }

  /** `addNotification`: prepend one fresh unread entry and count it. */
  function Add(s: State, p: Payload, generatedId: int, now: int): (r: State)
    ensures |r.entries| == |s.entries| + 1 && r.entries[1..] == s.entries
    ensures r.entries[0] == NewEntry(p, generatedId, now) && !r.entries[0].read
    ensures r.unreadCount == s.unreadCount + 1
  {
    State([NewEntry(p, generatedId, now)] + s.entries, s.unreadCount + 1)
  }

  /** The list after `markAsRead(id)`: entries with that id become read, nothing else changes. */
  function MarkRead(es: seq<Entry>, id: int): (r: seq<Entry>)
    ensures |r| == |es|
    ensures forall i :: 0 <= i < |es| ==> r[i] == (if es[i].id == id then es[i].(read := true) else es[i])
  {
    if es == [] then [] else [if es[0].id == id then es[0].(read := true) else es[0]] + MarkRead(es[1..], id)
  }

  /** `markAsRead(id)`: mark the matching entries read and decrement the counter, floored at 0, unconditionally. */
  function MarkAsRead(s: State, id: int): (r: State)
    ensures r.entries == MarkRead(s.entries, id)
    ensures r.unreadCount == (if s.unreadCount == 0 then 0 else s.unreadCount - 1)
  {
    State(MarkRead(s.entries, id), if s.unreadCount == 0 then 0 else s.unreadCount - 1)
  }

  function MarkAllRead(es: seq<Entry>): (r: seq<Entry>)
    ensures |r| == |es|
    ensures forall i :: 0 <= i < |es| ==> r[i] == es[i].(read := true)
  {
    if es == [] then [] else [es[0].(read := true)] + MarkAllRead(es[1..])
  }

  /** `markAllAsRead`: every entry read, counter 0. */
  function MarkAllAsRead(s: State): (r: State)
    ensures |r.entries| == |s.entries| && r.unreadCount == 0
    ensures forall i :: 0 <= i < |s.entries| ==> r.entries[i] == s.entries[i].(read := true)
  {
    State(MarkAllRead(s.entries), 0)
  }

  /** JavaScript `find`: the first entry carrying `id`. */
  function FindById(es: seq<Entry>, id: int): (r: Option<Entry>)
    ensures r.None? <==> !HasId(es, id)
    ensures r.Some? ==> exists i :: 0 <= i < |es| && es[i] == r.value && r.value.id == id &&
                                   forall j :: 0 <= j < i ==> es[j].id != id
  {
    if es == [] then None
    else if es[0].id == id then Some(es[0])
    else
      var r := FindById(es[1..], id);
      assert r.Some? ==> exists i :: 0 <= i < |es| && es[i] == r.value && r.value.id == id &&
                                     forall j :: 0 <= j < i ==> es[j].id != id by {
        if r.Some? {
          var i :| 0 <= i < |es[1..]| && es[1..][i] == r.value && r.value.id == id &&
                   forall j :: 0 <= j < i ==> es[1..][j].id != id;
          assert es[i + 1] == r.value;
          assert forall j :: 0 <= j < i + 1 ==> es[j].id != id by {
            forall j | 0 <= j < i + 1 ensures es[j].id != id {
              if j > 0 { assert es[j] == es[1..][j - 1]; }
            }
          }
        }
      }
      r
  }

  /** The list without the entries carrying `id`. */
  function RemoveId(es: seq<Entry>, id: int): (r: seq<Entry>)
    ensures forall e :: e in r <==> e in es && e.id != id
    ensures Seqs.IsSubsequence(r, es)
  {
    Seqs.Filter(es, (e: Entry) => e.id != id)
  }

  /**
   * `clearNotification(id)`: remove every entry with that id; the counter
   * drops by one (floored at 0) only when the first such entry was unread.
   */
  function ClearNotification(s: State, id: int): (r: State)
    ensures forall e :: e in r.entries <==> e in s.entries && e.id != id
    ensures var found := FindById(s.entries, id);
            r.unreadCount == if found.Some? && !found.value.read && s.unreadCount > 0
                             then s.unreadCount - 1 else s.unreadCount
  {
    var found := FindById(s.entries, id);
    var count := if found.Some? && !found.value.read then (if s.unreadCount == 0 then 0 else s.unreadCount - 1)
                 else s.unreadCount;
    State(RemoveId(s.entries, id), count)
  }

  /** `clearAllNotifications`: empty list, counter 0. */
  function ClearAll(s: State): (r: State)
    ensures r.entries == [] && r.unreadCount == 0
  {
    Initial
  }

  // ---- counting lemmas ------------------------------------------------------

  lemma {:induction false} MarkReadUnread(es: seq<Entry>, id: int)
    ensures UnreadIn(MarkRead(es, id)) + UnreadWithId(es, id) == UnreadIn(es)
  {
    if es != [] {
      MarkReadUnread(es[1..], id);
      assert MarkRead(es, id)[1..] == MarkRead(es[1..], id);
    }
  }

  lemma {:induction false} RemoveIdUnread(es: seq<Entry>, id: int)
    ensures UnreadIn(RemoveId(es, id)) + UnreadWithId(es, id) == UnreadIn(es)
  {
    if es != [] {
      RemoveIdUnread(es[1..], id);
      if es[0].id != id {
        assert RemoveId(es, id) == [es[0]] + RemoveId(es[1..], id);
        assert ([es[0]] + RemoveId(es[1..], id))[1..] == RemoveId(es[1..], id);
      }
    }
  }

  lemma {:induction false} MarkAllReadUnread(es: seq<Entry>)
    ensures UnreadIn(MarkAllRead(es)) == 0
  {
    if es != [] {
      MarkAllReadUnread(es[1..]);
      assert MarkAllRead(es)[1..] == MarkAllRead(es[1..]);
    }
  }

  lemma {:induction false} NoIdNoUnread(es: seq<Entry>, id: int)
    requires !HasId(es, id)
    ensures UnreadWithId(es, id) == 0
  {
    if es != [] {
      NoIdNoUnread(es[1..], id);
    }
  }

  /** With distinct ids at most one unread entry carries a given id, and one does exactly when it is present and unread. */
  lemma {:induction false} UniqueUnreadWithId(es: seq<Entry>, id: int)
    requires UniqueIds(es)
    ensures UnreadWithId(es, id) <= 1
    ensures UnreadWithId(es, id) == 1 <==> HasUnreadId(es, id)
  {
    if es != [] {
      var tail := es[1..];
      assert UniqueIds(tail) by {
        forall i, j | 0 <= i < j < |tail|
          ensures tail[i].id != tail[j].id
        {
          assert tail[i] == es[i + 1] && tail[j] == es[j + 1];
        }
      }
      UniqueUnreadWithId(tail, id);
      if es[0].id == id {
        NoIdNoUnread(tail, id);
      } else {
        if HasUnreadId(es, id) {
          var k :| 0 <= k < |es| && es[k].id == id && !es[k].read;
          assert tail[k - 1] == es[k];
        }
        if HasUnreadId(tail, id) {
          var k :| 0 <= k < |tail| && tail[k].id == id && !tail[k].read;
          assert es[k + 1] == tail[k];
        }
      }
    }
  }

  /** With distinct ids, `find` returns an unread entry exactly when an unread entry carries the id. */
  lemma FindUnreadIff(es: seq<Entry>, id: int)
    requires UniqueIds(es)
    ensures (FindById(es, id).Some? && !FindById(es, id).value.read) <==> HasUnreadId(es, id)
  {
    var r := FindById(es, id);
    if r.Some? {
      var i :| 0 <= i < |es| && es[i] == r.value && r.value.id == id && forall j :: 0 <= j < i ==> es[j].id != id;
      if HasUnreadId(es, id) {
        var k :| 0 <= k < |es| && es[k].id == id && !es[k].read;
        assert k == i;
      }
    }
  }

  // ---- the counter: how far it can drift ------------------------------------

  /** A new entry with a fresh id keeps the counter sound, and exact if it was exact. */
  lemma AddKeepsCounter(s: State, p: Payload, generatedId: int, now: int)
    requires !HasId(s.entries, p.id.GetOr(generatedId))
    ensures Sound(s) ==> Sound(Add(s, p, generatedId, now))
    ensures Exact(s) <==> Exact(Add(s, p, generatedId, now))
  {
    var r := Add(s, p, generatedId, now);
    assert r.entries[1..] == s.entries;
    if UniqueIds(s.entries) {
      forall i, j | 0 <= i < j < |r.entries|
        ensures r.entries[i].id != r.entries[j].id
      {
        if i == 0 {
          assert r.entries[j] == s.entries[j - 1];
        } else {
          assert r.entries[i] == s.entries[i - 1] && r.entries[j] == s.entries[j - 1];
        }
      }
    }
  }

  /**
   * `markAsRead` never makes the counter overshoot: from a sound state it
   * stays sound, so the counter can only fall behind the true unread number.
   */
  lemma MarkAsReadKeepsSound(s: State, id: int)
    requires Sound(s)
    ensures Sound(MarkAsRead(s, id))
  {
    var r := MarkAsRead(s, id);
    MarkReadUnread(s.entries, id);
    UniqueUnreadWithId(s.entries, id);
    assert UniqueIds(r.entries) by {
      forall i, j | 0 <= i < j < |r.entries|
        ensures r.entries[i].id != r.entries[j].id
      {
        assert r.entries[i].id == s.entries[i].id && r.entries[j].id == s.entries[j].id;
      }
    }
  }

  /**
   * From an exact state with distinct ids, `markAsRead(id)` keeps the counter
   * exact if and only if an unread entry carries `id` or the counter is
   * already 0; otherwise (an absent id, an entry already read) the counter
   * ends one below the true unread number.
   */
  lemma MarkAsReadExactIff(s: State, id: int)
    requires Exact(s) && UniqueIds(s.entries)
    ensures Exact(MarkAsRead(s, id)) <==> (s.unreadCount == 0 || HasUnreadId(s.entries, id))
    ensures !Exact(MarkAsRead(s, id)) ==> MarkAsRead(s, id).unreadCount + 1 == UnreadIn(MarkAsRead(s, id).entries)
  {
    MarkReadUnread(s.entries, id);
    UniqueUnreadWithId(s.entries, id);
  }

  /** With distinct ids, `clearNotification` keeps the counter sound, and exact if it was exact. */
  lemma ClearKeepsCounter(s: State, id: int)
    requires UniqueIds(s.entries)
    ensures Sound(s) ==> Sound(ClearNotification(s, id))
    ensures Exact(s) ==> Exact(ClearNotification(s, id))
  {
    var r := ClearNotification(s, id);
    RemoveIdUnread(s.entries, id);
    UniqueUnreadWithId(s.entries, id);
    FindUnreadIff(s.entries, id);
    SubsequenceKeepsUnique(r.entries, s.entries);
  }

  lemma {:induction false} SubsequenceKeepsUnique(sub: seq<Entry>, es: seq<Entry>)
    requires Seqs.IsSubsequence(sub, es) && UniqueIds(es)
    ensures UniqueIds(sub)
    decreases |es|
  {
    if sub != [] {
      var tail := es[1..];
      assert UniqueIds(tail) by {
        forall i, j | 0 <= i < j < |tail|
          ensures tail[i].id != tail[j].id
        {
          assert tail[i] == es[i + 1] && tail[j] == es[j + 1];
        }
      }
      if sub[0] == es[0] && Seqs.IsSubsequence(sub[1..], tail) {
        SubsequenceKeepsUnique(sub[1..], tail);
        Seqs.SubsequenceMembers(sub[1..], tail);
        forall i, j | 0 <= i < j < |sub|
          ensures sub[i].id != sub[j].id
        {
          if i == 0 {
            assert sub[j] == sub[1..][j - 1];
            assert sub[j] in tail;
            var k :| 0 <= k < |tail| && tail[k] == sub[j];
            assert es[k + 1] == sub[j];
          } else {
            assert sub[i] == sub[1..][i - 1] && sub[j] == sub[1..][j - 1];
          }
        }
      } else {
        SubsequenceKeepsUnique(sub, tail);
      }
    }
  }

  /** `markAllAsRead` and `clearAllNotifications` resynchronise the counter whatever state they start from. */
  lemma BulkOperationsResync(s: State)
    ensures Exact(MarkAllAsRead(s)) && Exact(ClearAll(s))
    ensures UniqueIds(s.entries) ==> Sound(MarkAllAsRead(s))
  {
    MarkAllReadUnread(s.entries);
  }

  /** `markAllAsRead` is idempotent. */
  lemma MarkAllAsReadIdempotent(s: State)
    ensures MarkAllAsRead(MarkAllAsRead(s)) == MarkAllAsRead(s)
  {
    var once := MarkAllAsRead(s);
    var twice := MarkAllAsRead(once);
    assert twice.entries == once.entries;
  }

  /** The counter can fall behind: marking an already-read entry read still decrements it. */
  lemma ReadEntryUndercounts()
    ensures var s := State([Entry(1, "t", "m", "info", "", true, 0), Entry(2, "t", "m", "info", "", false, 0)], 1);
            var r := MarkAsRead(s, 1);
            Exact(s) && r.unreadCount == 0 && UnreadIn(r.entries) == 1
  {
    var s := State([Entry(1, "t", "m", "info", "", true, 0), Entry(2, "t", "m", "info", "", false, 0)], 1);
    var r := MarkAsRead(s, 1);
    assert r.entries[1..] == [s.entries[1]];
    assert r.entries[1..][1..] == [];
  }

  /** The counter can run ahead only through duplicate ids: clearing two unread entries sharing an id decrements once. */
  lemma DuplicateIdsOvercount()
    ensures var e := Entry(7, "t", "m", "info", "", false, 0);
            var s := State([e, e], 2);
            var r := ClearNotification(s, 7);
            Exact(s) && r.unreadCount == 1 && UnreadIn(r.entries) == 0
  {
    var e := Entry(7, "t", "m", "info", "", false, 0);
    var s := State([e, e], 2);
    assert [e, e][1..] == [e];
    assert [e][1..] == [];
    assert UnreadIn([e]) == 1;
    assert UnreadIn([e, e]) == 2;
    var r := ClearNotification(s, 7);
    assert r.entries == [];
  }
}
