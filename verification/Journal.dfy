/** `ansina.heart.journal`: an append-only journal with bounded retention. */
module Journal {
  import opened Wrappers
  import opened Clock
  import opened Counting
  import opened Text

  type Id = string

  datatype Decision = Idle | Act | Escalate

  /** One `heart_journal` row; `createdAt` is a whole number of milliseconds. */
  datatype Entry = Entry(createdAt: int, tickNumber: nat, decision: Decision, note: string, promptTokens: nat)

  type Rows = map<Id, Entry>

  const DAY := 86_400_000_000

  /** `ORDER BY created_at DESC, id DESC`. */
  predicate Newer(rows: Rows, a: Id, b: Id)
    requires a in rows && b in rows
  {
    rows[a].createdAt > rows[b].createdAt || (rows[a].createdAt == rows[b].createdAt && Less(b, a))
  }

  function NewerThan(rows: Rows, id: Id): set<Id>
    requires id in rows
  {
    set n | n in rows && Newer(rows, n, id)
  }

  /** The row is among the newest `max`. */
  predicate InTop(rows: Rows, id: Id, max: nat)
    requires id in rows
  {
    |NewerThan(rows, id)| < max
  }

  function Cutoff(now: int, retentionDays: nat): int {
    Trunc(now - retentionDays * DAY)
  }

  /** What the sweep's one `DELETE` leaves. */
  function Swept(rows: Rows, cutoff: int, max: nat): Rows {
    map id | id in rows && rows[id].createdAt >= cutoff && InTop(rows, id, max) :: rows[id]
  }

  function Fresh(rows: Rows, cutoff: int): Rows {
    map id | id in rows && rows[id].createdAt >= cutoff :: rows[id]
  }

  lemma {:induction false} LessIsOrder(a: string, b: string, c: string)
    ensures !(Less(a, b) && Less(b, a)) && (a == b || Less(a, b) || Less(b, a))
    ensures Less(a, b) && Less(b, c) ==> Less(a, c)
  {
    if a != "" && b != "" {
      LessIsOrder(a[1..], b[1..], if c == "" then "" else c[1..]);
      assert a == [a[0]] + a[1..] && b == [b[0]] + b[1..];
    }
  }

  lemma NewerIsOrder(rows: Rows, a: Id, b: Id, c: Id)
    requires a in rows && b in rows && c in rows
    ensures !(Newer(rows, a, b) && Newer(rows, b, a)) && (a == b || Newer(rows, a, b) || Newer(rows, b, a))
    ensures Newer(rows, a, b) && Newer(rows, b, c) ==> Newer(rows, a, c)
  {
    LessIsOrder(a, b, c);
    LessIsOrder(c, b, a);
  }

  /** A row newer than one of the newest is itself one of the newest. */
  lemma TopIsUpward(rows: Rows, id: Id, newer: Id, max: nat)
    requires id in rows && newer in rows && Newer(rows, newer, id) && InTop(rows, id, max)
    ensures InTop(rows, newer, max)
  {
    forall n | n in NewerThan(rows, newer) ensures n in NewerThan(rows, id) {
      NewerIsOrder(rows, n, newer, id);
    }
    SubsetSize(NewerThan(rows, newer), NewerThan(rows, id));
  }

  lemma {:induction false} OldestExists(rows: Rows) returns (oldest: Id)
    requires rows != map[]
    ensures oldest in rows && forall n :: n in rows && n != oldest ==> Newer(rows, n, oldest)
    decreases |rows|
  {
    var first :| first in rows;
    var others := rows - {first};
    oldest := first;
    assert forall n :: n in rows && n != first ==> n in others;
    if others != map[] {
      var second := OldestExists(others);
      NewerIsOrder(rows, first, second, second);
      if Newer(rows, first, second) {
        oldest := second;
      }
      forall n | n in rows && n != oldest ensures Newer(rows, n, oldest) {
        NewerIsOrder(rows, n, second, first);
        assert n != first && n != second ==> Newer(others, n, second);
      }
    }
  }

  function Top(rows: Rows, max: nat): set<Id> {
    set id | id in rows && InTop(rows, id, max)
  }

  lemma {:induction false} TopWithoutOldest(rows: Rows, oldest: Id, max: nat)
    requires oldest in rows && forall n :: n in rows && n != oldest ==> Newer(rows, n, oldest)
    ensures var rest := rows - {oldest}; Top(rows, max) == Top(rest, max) + if |rest| < max then {oldest} else {}
  {
    var rest := rows - {oldest};
    forall n | n in rest ensures NewerThan(rest, n) == NewerThan(rows, n) {
      NewerIsOrder(rows, n, oldest, n);
    }
    NewerIsOrder(rows, oldest, oldest, oldest);
    assert NewerThan(rows, oldest) == rest.Keys;
    assert |rest.Keys| == |rest|;
    hide Newer, NewerThan;
    forall n | n in rest ensures n in Top(rows, max) <==> n in Top(rest, max) {
    }
  }

  /** The newest `max` are exactly that many, as far as there are rows. */
  lemma {:induction false} TopSize(rows: Rows, max: nat)
    ensures |Top(rows, max)| == if max <= |rows| then max else |rows|
    decreases |rows|
  {
    if rows == map[] {
      assert Top(rows, max) == {};
    } else {
      var oldest := OldestExists(rows);
      var rest := rows - {oldest};
      TopWithoutOldest(rows, oldest, max);
      assert rows.Keys == rest.Keys + {oldest} && |rows.Keys| == |rest.Keys| + 1;
      hide InTop, Newer, NewerThan;
      TopSize(rest, max);
      assert oldest !in Top(rest, max);
    }
  }

  /**
   * One sweep leaves exactly the newest `max` of the rows not older than the cutoff, as many
   * as there are, and sweeping again deletes nothing.
   */
  lemma SweepKeepsNewestFresh(rows: Rows, cutoff: int, max: nat)
    ensures Swept(rows, cutoff, max).Keys == Top(Fresh(rows, cutoff), max)
    ensures var count := |Fresh(rows, cutoff)|; |Swept(rows, cutoff, max)| == if max <= count then max else count
    ensures Swept(Swept(rows, cutoff, max), cutoff, max) == Swept(rows, cutoff, max)
  {
    var young, swept := Fresh(rows, cutoff), Swept(rows, cutoff, max);
    forall id | id in young ensures NewerThan(young, id) == NewerThan(rows, id) {
    }
    assert swept.Keys == Top(young, max);
    TopSize(young, max);
    assert |swept.Keys| == |swept|;
    forall id | id in swept ensures InTop(swept, id, max) {
      SubsetSize(NewerThan(swept, id), NewerThan(rows, id));
    }
    assert Swept(swept, cutoff, max).Keys == swept.Keys;
  }

  /** Every row ever appended, and what an `append` after each of them left. */
  datatype Appended = Appended(id: Id, entry: Entry)

  function All(history: seq<Appended>): Rows {
    if history == [] then map[]
    else var last := history[|history| - 1]; All(history[..|history| - 1])[last.id := last.entry]
  }

  function Append(rows: Rows, a: Appended, max: nat, retentionDays: nat): Rows {
    Swept(rows[a.id := a.entry], Cutoff(a.entry.createdAt, retentionDays), max)
  }

  function JournalAfter(history: seq<Appended>, max: nat, retentionDays: nat): Rows {
    if history == [] then map[]
    else Append(JournalAfter(history[..|history| - 1], max, retentionDays), history[|history| - 1], max, retentionDays)
  }

  /** Ids are fresh and the clock never goes back. */
  predicate InOrder(history: seq<Appended>) {
    forall i, j :: 0 <= i < j < |history| ==>
      history[i].id != history[j].id && history[i].entry.createdAt <= history[j].entry.createdAt
  }

  lemma {:induction false} AllIsHistory(history: seq<Appended>, id: Id)
    ensures id in All(history) ==> exists i ::
        0 <= i < |history| && history[i].id == id && history[i].entry == All(history)[id]
  {
    if history != [] {
      var front := history[..|history| - 1];
      AllIsHistory(front, id);
      if id in All(history) && id != history[|history| - 1].id {
        var i :| 0 <= i < |front| && front[i].id == id && front[i].entry == All(front)[id];
        assert history[i] == front[i];
      }
    }
  }

  /** What the whole history and a journal swept from it have in common when one more row arrives. */
  lemma NextTop(all: Rows, swept: Rows, a: Appended, before: int, cutoff: int, max: nat)
    requires swept == Swept(all, before, max) && before <= cutoff <= a.entry.createdAt && a.id !in all
    requires forall id :: id in all ==> all[id].createdAt <= a.entry.createdAt
    ensures Swept(swept[a.id := a.entry], cutoff, max) == Swept(all[a.id := a.entry], cutoff, max)
  {
    var j, w := swept[a.id := a.entry], all[a.id := a.entry];
    assert forall id :: id in j ==> id in w && j[id] == w[id];
    forall id | id in j && w[id].createdAt >= cutoff ensures InTop(j, id, max) <==> InTop(w, id, max) {
      SameTop(all, swept, a, before, max, id);
    }
    forall id | id in w && w[id].createdAt >= cutoff && InTop(w, id, max) ensures id in j {
      if id != a.id {
        assert NewerThan(all, id) <= NewerThan(w, id);
        SubsetSize(NewerThan(all, id), NewerThan(w, id));
      }
    }
  }

  lemma SameTop(all: Rows, swept: Rows, a: Appended, before: int, max: nat, id: Id)
    requires swept == Swept(all, before, max) && before <= a.entry.createdAt && a.id !in all
    requires forall n :: n in all ==> all[n].createdAt <= a.entry.createdAt
    requires id in swept || id == a.id
    ensures InTop(swept[a.id := a.entry], id, max) <==> InTop(all[a.id := a.entry], id, max)
  {
    var j, w := swept[a.id := a.entry], all[a.id := a.entry];
    assert NewerThan(j, id) <= NewerThan(w, id);
    SubsetSize(NewerThan(j, id), NewerThan(w, id));
    if missing :| missing in NewerThan(w, id) && missing !in NewerThan(j, id) {
      assert missing in all && missing !in swept;
      if id != a.id {
        TopIsUpward(all, id, missing, max);
      } else {
        TiedTop(all, swept, a, before, max, missing);
      }
    } else {
      assert NewerThan(j, id) == NewerThan(w, id);
    }
  }

  /** A tied row that was swept away leaves `max` others ahead of the new row. */
  lemma TiedTop(all: Rows, swept: Rows, a: Appended, before: int, max: nat, missing: Id)
    requires swept == Swept(all, before, max) && before <= a.entry.createdAt && a.id !in all
    requires missing in all && missing !in swept && Newer(all[a.id := a.entry], missing, a.id)
    ensures !InTop(swept[a.id := a.entry], a.id, max)
  {
    var j, w := swept[a.id := a.entry], all[a.id := a.entry];
    assert !InTop(all, missing, max);
    SubsetSize(NewerThan(all, missing), all.Keys);
    assert |all.Keys| == |all|;
    TopSize(all, max);
    forall n | n in Top(all, max) ensures n in NewerThan(j, a.id) {
      NewerIsOrder(all, n, missing, n);
      if Newer(all, missing, n) {
        TopIsUpward(all, n, missing, max);
      }
      NewerIsOrder(w, n, missing, a.id);
      assert n in swept;
    }
    SubsetSize(Top(all, max), NewerThan(j, a.id));
  }

  lemma CutoffGrows(earlier: int, later: int, retentionDays: nat)
    requires earlier <= later
    ensures Cutoff(earlier, retentionDays) <= Cutoff(later, retentionDays) <= later
  {
    TruncGrows(earlier - retentionDays * DAY, later - retentionDays * DAY);
  }

  /**
   * After every append, on a clock that never goes back, the journal is exactly the newest
   * `max` of all rows ever appended that are not older than the last cutoff.
   */
  lemma {:induction false} JournalIsNewest(history: seq<Appended>, max: nat, retentionDays: nat)
    requires InOrder(history) && history != []
    ensures var last := history[|history| - 1].entry.createdAt;
            JournalAfter(history, max, retentionDays) == Swept(All(history), Cutoff(last, retentionDays), max)
  {
    hide Swept, Cutoff, Newer;
    var n := |history| - 1;
    var front, a := history[..n], history[n];
    var cutoff := Cutoff(a.entry.createdAt, retentionDays);
    if front == [] {
      assert All(front) == map[] && JournalAfter(front, max, retentionDays) == map[];
    } else {
      JournalIsNewest(front, max, retentionDays);
      forall id | id in All(front) ensures id != a.id && All(front)[id].createdAt <= a.entry.createdAt {
        AllIsHistory(front, id);
      }
      CutoffGrows(front[n - 1].entry.createdAt, a.entry.createdAt, retentionDays);
      NextTop(All(front), JournalAfter(front, max, retentionDays), a,
          Cutoff(front[n - 1].entry.createdAt, retentionDays), cutoff, max);
    }
  }

  class HeartJournalRepository {
    var rows: Rows

    constructor (rows: Rows)
      ensures this.rows == rows
    {
      this.rows := rows;
    }

    /** Inserts, then sweeps as of the new row's own time. */
    method AppendEntry(id: Id, entry: Entry, maxEntries: nat, retentionDays: nat)
      requires id !in rows
      modifies this
      ensures rows == Append(old(rows), Appended(id, entry), maxEntries, retentionDays)
    {
      rows := rows[id := entry];
      var deleted := Sweep(entry.createdAt, maxEntries, retentionDays);
    }

    /** Returns the number of rows deleted. */
    method Sweep(now: int, maxEntries: nat, retentionDays: nat) returns (deleted: nat)
      modifies this
      ensures rows == Swept(old(rows), Cutoff(now, retentionDays), maxEntries)
      ensures deleted == |old(rows)| - |rows|
      ensures old(rows) == Swept(old(rows), Cutoff(now, retentionDays), maxEntries) ==> deleted == 0
    {
      var cutoff := Cutoff(now, retentionDays);
      var gone := set id | id in rows && (rows[id].createdAt < cutoff || id !in Top(rows, maxEntries));
      deleted := |gone|;
      ghost var before := rows;
      rows := rows - gone;
      assert before.Keys == rows.Keys + gone && |before.Keys| == |before| && |rows.Keys| == |rows|;
      assert rows == Swept(before, cutoff, maxEntries);
    }

    /** Newest first, up to `limit` rows, those after `since` only. */
    method ListRecent(limit: nat, since: Option<int>) returns (listed: seq<Id>)
      ensures forall i :: 0 <= i < |listed| ==>
          listed[i] in rows && (since.Some? ==> rows[listed[i]].createdAt > since.value)
      ensures forall i, j :: 0 <= i < j < |listed| ==> Newer(rows, listed[i], listed[j])
      ensures forall id :: id in rows && (since.Some? ==> rows[id].createdAt > since.value) && id !in listed ==>
                |listed| == limit && forall i :: 0 <= i < |listed| ==> Newer(rows, listed[i], id)
      ensures |listed| <= limit
    {
      listed := [];
      var matching := set id | id in rows && (since.None? || rows[id].createdAt > since.value);
      var rest := matching;
      while rest != {} && |listed| < limit
        invariant rest <= matching && |listed| <= limit
        invariant forall id :: id in listed <==> id in matching - rest
        invariant forall i :: 0 <= i < |listed| ==> listed[i] in matching
        invariant forall i, j :: 0 <= i < j < |listed| ==> Newer(rows, listed[i], listed[j])
        invariant forall i, id :: 0 <= i < |listed| && id in rest ==> Newer(rows, listed[i], id)
        decreases rest
      {
        var newest := Newest(rest);
        listed, rest := listed + [newest], rest - {newest};
      }
      assert forall id :: id in rows && (since.Some? ==> rows[id].createdAt > since.value) ==> id in matching;
    }

    method Newest(ids: set<Id>) returns (newest: Id)
      requires ids != {} && ids <= rows.Keys
      ensures newest in ids && forall id :: id in ids && id != newest ==> Newer(rows, newest, id)
    {
      newest :| newest in ids;
      var rest := ids - {newest};
      while rest != {}
        invariant rest <= ids && newest in ids
        invariant forall id :: id in ids - rest && id != newest ==> Newer(rows, newest, id)
      {
        var id :| id in rest;
        NewerIsOrder(rows, id, newest, id);
        if Newer(rows, id, newest) {
          forall other | other in ids - rest && other != newest ensures Newer(rows, id, other) {
            NewerIsOrder(rows, id, newest, other);
          }
          newest := id;
        }
        rest := rest - {id};
      }
    }
  }

  /**
   * A sweep's outcome row by row: what is left was there, unchanged and not past the cutoff; there are at most
   * `max` rows; and a row not past the cutoff goes only if `max` later ones stay, ties going to the greater id.
   */
  lemma SweepExactly(rows: Rows, cutoff: int, max: nat, id: Id)
    ensures var swept := Swept(rows, cutoff, max);
            && |swept| <= max
            && (id in swept ==> id in rows && swept[id] == rows[id] && rows[id].createdAt >= cutoff)
            && (id in rows && rows[id].createdAt >= cutoff && id !in swept ==>
                  && |swept| == max
                  && forall kept :: kept in swept ==>
                       || rows[kept].createdAt > rows[id].createdAt
                       || (rows[kept].createdAt == rows[id].createdAt && Less(id, kept)))
  {
    var swept := Swept(rows, cutoff, max);
    SweepKeepsNewestFresh(rows, cutoff, max);
    if id in rows && rows[id].createdAt >= cutoff && id !in swept {
      forall kept | kept in swept ensures Newer(rows, kept, id) {
        NewerIsOrder(rows, kept, id, id);
        if Newer(rows, id, kept) {
          TopIsUpward(rows, kept, id, max);
        }
      }
      DroppedLeavesFull(rows, cutoff, max, id);
    }
  }

  lemma DroppedLeavesFull(rows: Rows, cutoff: int, max: nat, id: Id)
    requires id in rows && rows[id].createdAt >= cutoff && !InTop(rows, id, max)
    ensures |Fresh(rows, cutoff)| >= max
  {
    forall n | n in NewerThan(rows, id) ensures n in Fresh(rows, cutoff).Keys {
    }
    SubsetSize(NewerThan(rows, id), Fresh(rows, cutoff).Keys);
    assert |Fresh(rows, cutoff).Keys| == |Fresh(rows, cutoff)|;
  }

  /** A row of a whole millisecond is past the cutoff when it is older than the retention, cut to milliseconds. */
  lemma CutoffIsRetention(createdAt: int, now: int, retentionDays: nat)
    requires createdAt % 1000 == 0 && now % 1000 == 0
    ensures createdAt >= Cutoff(now, retentionDays) <==> now - createdAt <= retentionDays * 86_400 * 1_000_000
  {
    TruncIsWhole(now - retentionDays * DAY);
    assert (now - retentionDays * DAY) % 1000 == 0;
  }

  /** The newest row is kept whenever any may be, and an append brings nothing else back. */
  lemma AppendKeepsNewest(rows: Rows, a: Appended, max: nat, retentionDays: nat)
    requires max > 0 && a.entry.createdAt % 1000 == 0 && a.id !in rows
    requires forall id :: id in rows ==> rows[id].createdAt < a.entry.createdAt
    ensures var after := Append(rows, a, max, retentionDays);
            a.id in after && after[a.id] == a.entry && forall id :: id in after && id != a.id ==> id in rows
  {
    var all := rows[a.id := a.entry];
    NewerIsOrder(all, a.id, a.id, a.id);
    assert NewerThan(all, a.id) == {};
  }
}
