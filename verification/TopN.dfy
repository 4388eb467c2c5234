/** Bounded top-N: a heap that never holds more than n + 1 entries yields what sorting everything would. */
module TopN {
  import opened Ordering

  /** Highest rank first. */
  ghost predicate Descending<T>(s: seq<T>, leq: (T, T) -> bool)
  {
    forall i, j | 0 <= i < j < |s| :: leq(s[j], s[i])
  }

  function InsertRanked<T>(x: T, s: seq<T>, leq: (T, T) -> bool): (r: seq<T>)
    ensures |r| == |s| + 1
  {
    if s == [] || leq(s[0], x) then [x] + s else [s[0]] + InsertRanked(x, s[1..], leq)
  }

  /** The reference: everything sorted, highest rank first. */
  function Ranked<T>(items: seq<T>, leq: (T, T) -> bool): (r: seq<T>)
    ensures |r| == |items|
  {
    if items == [] then []
    else InsertRanked(items[|items| - 1], Ranked(items[..|items| - 1], leq), leq)
  }

  function Min(a: nat, b: nat): nat
  {
    if a < b then a else b
  }

  /** Everything below the head stays below it when an entry that ranks lower joins. */
  lemma InsertBelow<T(!new)>(h: T, x: T, t: seq<T>, rest: seq<T>, leq: (T, T) -> bool)
    requires Descending([h] + t, leq) && leq(x, h) && Descending(rest, leq) &&
      multiset(rest) == multiset(t) + multiset{x}
    ensures Descending([h] + rest, leq)
  {
    forall j | 0 <= j < |rest| ensures leq(rest[j], h) {
      assert rest[j] in multiset(rest);
      if rest[j] != x {
        assert rest[j] in multiset(t);
        var k :| 0 <= k < |t| && t[k] == rest[j];
        var s := [h] + t;
        assert leq(s[k + 1], s[0]);
      }
    }
  }

  lemma {:induction false} InsertRankedFacts<T(!new)>(x: T, s: seq<T>, leq: (T, T) -> bool)
    requires TotalOrder(leq) && Descending(s, leq)
    ensures Descending(InsertRanked(x, s, leq), leq)
    ensures multiset(InsertRanked(x, s, leq)) == multiset(s) + multiset{x}
  {
    if s != [] {
      var h, t := s[0], s[1..];
      assert s == [h] + t;
      if leq(h, x) {
        InsertOnTop(x, s, leq);
      } else {
        InsertRankedFacts(x, t, leq);
        InsertBelow(h, x, t, InsertRanked(x, t, leq), leq);
      }
    }
  }

  lemma InsertOnTop<T(!new)>(x: T, s: seq<T>, leq: (T, T) -> bool)
    requires TotalOrder(leq) && Descending(s, leq) && s != [] && leq(s[0], x)
    ensures Descending([x] + s, leq)
  {
    forall j | 0 <= j < |s| ensures leq(s[j], x) {
      if j > 0 {
        assert leq(s[j], s[0]);
      }
    }
  }

  /** Sorting yields a descending permutation. */
  lemma {:induction false} RankedFacts<T(!new)>(items: seq<T>, leq: (T, T) -> bool)
    requires TotalOrder(leq)
    ensures Descending(Ranked(items, leq), leq)
    ensures multiset(Ranked(items, leq)) == multiset(items)
  {
    if items != [] {
      var init, x := items[..|items| - 1], items[|items| - 1];
      RankedFacts(init, leq);
      InsertRankedFacts(x, Ranked(init, leq), leq);
      assert items == init + [x];
    }
  }

  lemma DescendingUnique<T(!new)>(a: seq<T>, b: seq<T>, leq: (T, T) -> bool)
    requires TotalOrder(leq) && Descending(a, leq) && Descending(b, leq) && multiset(a) == multiset(b)
    ensures a == b
  {
    var geq := (x: T, y: T) => leq(y, x);
    assert TotalOrder(geq);
    SortedUnique(a, b, geq);
  }

  /** The first `n` entries, all of them if there are fewer. */
  function Take<T>(s: seq<T>, n: nat): seq<T>
  {
    s[..Min(n, |s|)]
  }

  lemma TakeCons<T>(x: T, s: seq<T>, n: nat)
    requires n > 0
    ensures Take([x] + s, n) == [x] + Take(s, n - 1)
  {
  }

  lemma TakeTwice<T>(s: seq<T>, n: nat)
    ensures Take(Take(s, n), n) == Take(s, n)
    ensures n > 0 ==> Take(Take(s, n), n - 1) == Take(s, n - 1)
  {
  }

  /** A new head pushes the rest down by one. */
  lemma InsertInFront<T>(x: T, s: seq<T>, n: nat)
    requires n > 0
    ensures Take([x] + s, n) == Take([x] + Take(s, n), n)
  {
    TakeCons(x, s, n);
    TakeCons(x, Take(s, n), n);
    TakeTwice(s, n);
  }

  /** The first n of the grown ranking come from the first n of the old one. */
  lemma {:induction false} InsertThenTake<T(!new)>(x: T, s: seq<T>, n: nat, leq: (T, T) -> bool)
    ensures Take(InsertRanked(x, s, leq), n) == Take(InsertRanked(x, Take(s, n), leq), n)
  {
    if n == 0 {
      assert Take(InsertRanked(x, s, leq), 0) == [];
      assert Take(InsertRanked(x, Take(s, 0), leq), 0) == [];
    } else if s == [] {
      assert Take(s, n) == s;
    } else if leq(s[0], x) {
      assert Take(s, n)[0] == s[0];
      InsertInFront(x, s, n);
    } else {
      var h, t := s[0], s[1..];
      assert s == [h] + t;
      TakeCons(h, t, n);
      assert Take(s, n)[1..] == Take(t, n - 1);
      InsertThenTake(x, t, n - 1, leq);
      TakeCons(h, InsertRanked(x, t, leq), n);
      TakeCons(h, InsertRanked(x, Take(t, n - 1), leq), n);
    }
  }

  /** Remove one lowest-ranked entry. */
  method PopLeast<T(==, !new)>(heap: seq<T>, leq: (T, T) -> bool) returns (rest: seq<T>, least: T)
    requires TotalOrder(leq) && heap != []
    ensures multiset(heap) == multiset(rest) + multiset{least}
    ensures forall x | x in heap :: leq(least, x)
  {
    var at := 0;
    for i := 1 to |heap|
      invariant 0 <= at < i
      invariant forall k | 0 <= k < i :: leq(heap[at], heap[k])
    {
      if leq(heap[i], heap[at]) {
        at := i;
      }
    }
    least := heap[at];
    rest := heap[..at] + heap[at + 1..];
    assert heap == heap[..at] + [least] + heap[at + 1..];
  }

  lemma LeastIsLast<T(!new)>(ranked: seq<T>, least: T, leq: (T, T) -> bool)
    requires TotalOrder(leq) && Descending(ranked, leq) && least in ranked && forall x | x in ranked :: leq(least, x)
    ensures ranked[|ranked| - 1] == least
  {
    var i :| 0 <= i < |ranked| && ranked[i] == least;
    var last := ranked[|ranked| - 1];
    assert last in ranked;
    assert i < |ranked| - 1 ==> leq(last, ranked[i]);
  }

  /** Dropping the least of a bag drops the last of its ranking. */
  lemma DropLeast<T(!new)>(ranked: seq<T>, rest: seq<T>, least: T, leq: (T, T) -> bool)
    requires TotalOrder(leq) && Descending(ranked, leq) && ranked != []
    requires multiset(ranked) == multiset(rest) + multiset{least} && forall x | x in ranked :: leq(least, x)
    ensures multiset(rest) == multiset(ranked[..|ranked| - 1])
  {
    LeastIsLast(ranked, least, leq) by { assert least in multiset(ranked); }
    DropLast(ranked, rest);
  }

  lemma DropLast<T>(s: seq<T>, rest: seq<T>)
    requires s != [] && multiset(s) == multiset(rest) + multiset{s[|s| - 1]}
    ensures multiset(rest) == multiset(s[..|s| - 1])
  {
    var init, last := s[..|s| - 1], s[|s| - 1];
    assert s == init + [last];
    assert multiset(s) - multiset{last} == multiset(init);
    assert multiset(s) - multiset{last} == multiset(rest);
  }

  method SortRanked<T(==, !new)>(items: seq<T>, leq: (T, T) -> bool) returns (out: seq<T>)
    requires TotalOrder(leq)
    ensures out == Ranked(items, leq)
  {
    out := [];
    for i := 0 to |items|
      invariant out == Ranked(items[..i], leq)
    {
      assert items[..i + 1][..i] == items[..i];
      out := InsertRanked(items[i], out, leq);
    }
    assert items[..|items|] == items;
  }

  /** What the heap holds after `i` entries: the first n of their ranking. */
  function Top<T>(items: seq<T>, i: nat, n: nat, leq: (T, T) -> bool): seq<T>
    requires i <= |items|
  {
    Take(Ranked(items[..i], leq), n)
  }

  lemma TopStep<T(!new)>(items: seq<T>, i: nat, n: nat, leq: (T, T) -> bool)
    requires TotalOrder(leq) && i < |items|
    ensures var grown := InsertRanked(items[i], Top(items, i, n, leq), leq);
      && Descending(grown, leq) && multiset(grown) == multiset(Top(items, i, n, leq)) + multiset{items[i]}
      && Top(items, i + 1, n, leq) == Take(grown, n)
  {
    assert items[..i + 1][..i] == items[..i];
    RankedFacts(items[..i], leq);
    InsertRankedFacts(items[i], Top(items, i, n, leq), leq);
    InsertThenTake(items[i], Ranked(items[..i], leq), n, leq);
  }

  /** Pushing an entry that fits. */
  lemma PushFits<T(!new)>(items: seq<T>, i: nat, n: nat, leq: (T, T) -> bool, heap: seq<T>)
    requires TotalOrder(leq) && i < |items| && multiset(heap) == multiset(Top(items, i, n, leq)) && |heap| < n
    ensures multiset(heap + [items[i]]) == multiset(Top(items, i + 1, n, leq))
  {
    TopStep(items, i, n, leq);
    SameBag(heap, Top(items, i, n, leq));
    var grown := InsertRanked(items[i], Top(items, i, n, leq), leq);
    assert Take(grown, n) == grown;
  }

  /** Pushing one entry too many and dropping the least. */
  lemma PushThenPop<T(!new)>(items: seq<T>, i: nat, n: nat, leq: (T, T) -> bool, heap: seq<T>, rest: seq<T>, least: T)
    requires TotalOrder(leq) && i < |items| && multiset(heap) == multiset(Top(items, i, n, leq)) && |heap| == n
    requires multiset(heap + [items[i]]) == multiset(rest) + multiset{least}
    requires forall x | x in heap + [items[i]] :: leq(least, x)
    ensures multiset(rest) == multiset(Top(items, i + 1, n, leq))
  {
    TopStep(items, i, n, leq);
    SameBag(heap, Top(items, i, n, leq));
    var grown := InsertRanked(items[i], Top(items, i, n, leq), leq);
    assert multiset(heap + [items[i]]) == multiset(grown);
    forall x | x in grown ensures leq(least, x) {
      assert x in multiset(grown);
      assert x in heap + [items[i]];
    }
    DropLeast(grown, rest, least, leq);
    assert Take(grown, n) == grown[..|grown| - 1];
  }

  /** One pass with a bounded heap equals sort-everything-then-take-n. */
  method BoundedTop<T(==, !new)>(items: seq<T>, n: nat, leq: (T, T) -> bool) returns (out: seq<T>)
    requires TotalOrder(leq)
    ensures out == Take(Ranked(items, leq), n)
  {
    if n == 0 {
      return [];
    }
    var heap: seq<T> := [];
    for i := 0 to |items|
      invariant |heap| <= n
      invariant multiset(heap) == multiset(Top(items, i, n, leq))
    {
      ghost var before := heap;
      heap := heap + [items[i]];
      if |heap| > n {
        var rest, least := PopLeast(heap, leq);
        PushThenPop(items, i, n, leq, before, rest, least);
        SameBag(heap, rest + [least]);
        heap := rest;
      } else {
        PushFits(items, i, n, leq, before);
      }
    }
    out := SortRanked(heap, leq);
    SortedTop(items, n, leq, heap);
  }

  lemma SortedTop<T(!new)>(items: seq<T>, n: nat, leq: (T, T) -> bool, heap: seq<T>)
    requires TotalOrder(leq) && multiset(heap) == multiset(Top(items, |items|, n, leq))
    ensures Ranked(heap, leq) == Take(Ranked(items, leq), n)
  {
    assert items[..|items|] == items;
    RankedFacts(items, leq);
    RankedFacts(heap, leq);
    DescendingUnique(Ranked(heap, leq), Take(Ranked(items, leq), n), leq);
  }

  /** The order in which entries are visited does not matter. */
  lemma RankedOrderFree<T(!new)>(a: seq<T>, b: seq<T>, leq: (T, T) -> bool)
    requires TotalOrder(leq) && multiset(a) == multiset(b)
    ensures Ranked(a, leq) == Ranked(b, leq)
  {
    RankedFacts(a, leq);
    RankedFacts(b, leq);
    DescendingUnique(Ranked(a, leq), Ranked(b, leq), leq);
  }
}

/** `topRooms` and the deepest-mailbox report. */
module TopReports {
  import opened Prelude
  import opened Ordering
  import opened Wire
  import opened TopN

  datatype RoomStat = RoomStat(room: Name, members: nat, messages: nat)

  /** Members, then messages, then name ascending (a smaller name ranks higher). */
  predicate StatLeq(a: RoomStat, b: RoomStat)
  {
    a.members < b.members ||
    (a.members == b.members && (a.messages < b.messages || (a.messages == b.messages && NameLeq(b.room, a.room))))
  }

  lemma StatLeqTotal()
    ensures TotalOrder(StatLeq)
  {
    NameLeqTotal();
  }

  /**
   * What the ranking means: of any two rooms in it the earlier one has more members, or as many and more messages, or
   * as many of both and the name that sorts first.
   */
  lemma BusierFirst(all: seq<RoomStat>, i: nat, j: nat)
    requires i < j < |Ranked(all, StatLeq)|
    ensures var a, b := Ranked(all, StatLeq)[i], Ranked(all, StatLeq)[j];
      || a.members > b.members
      || (a.members == b.members && a.messages > b.messages)
      || (a.members == b.members && a.messages == b.messages && NameLeq(a.room, b.room))
  {
    StatLeqTotal();
    RankedFacts(all, StatLeq);
  }

  datatype MailboxStat = MailboxStat(id: nat, depth: nat)

  /** Deeper queues rank higher, a smaller id breaks ties. */
  predicate DepthLeq(a: MailboxStat, b: MailboxStat)
  {
    a.depth < b.depth || (a.depth == b.depth && b.id <= a.id)
  }

  lemma DepthLeqTotal()
    ensures TotalOrder(DepthLeq)
  {
  }

  /** Of any two queues ranked the earlier one is deeper, or as deep and of the smaller id. */
  lemma DeeperFirst(all: seq<MailboxStat>, i: nat, j: nat)
    requires i < j < |Ranked(all, DepthLeq)|
    ensures var a, b := Ranked(all, DepthLeq)[i], Ranked(all, DepthLeq)[j];
      a.depth > b.depth || (a.depth == b.depth && a.id <= b.id)
  {
    DepthLeqTotal();
    RankedFacts(all, DepthLeq);
  }

  datatype RoomEntry = RoomEntry(members: set<nat>, messages: nat)

  function StatOf(room: Name, e: RoomEntry): RoomStat
  {
    RoomStat(room, |e.members|, e.messages)
  }

  /** A list of the stats of every room, each once, in some order. */
  ghost predicate Lists(stats: seq<RoomStat>, rooms: map<Name, RoomEntry>)
  {
    && Distinct(stats)
    && Elements(stats) == set r | r in rooms :: StatOf(r, rooms[r])
  }

  /** For every room map and every n: exactly the first n rooms of the full ranking. */
  method TopRooms(rooms: map<Name, RoomEntry>, n: nat) returns (out: seq<RoomStat>)
    ensures forall all | Lists(all, rooms) :: out == Take(Ranked(all, StatLeq), n)
  {
    var stats: seq<RoomStat> := [];
    var todo := rooms.Keys;
    while todo != {}
      invariant todo <= rooms.Keys
      invariant Distinct(stats)
      invariant Elements(stats) == set r | r in rooms && r !in todo :: StatOf(r, rooms[r])
    {
      var r :| r in todo;
      assert StatOf(r, rooms[r]) !in stats by {
        assert forall s | s in stats :: s in Elements(stats);
      }
      assert Elements(stats + [StatOf(r, rooms[r])]) == Elements(stats) + {StatOf(r, rooms[r])};
      stats, todo := stats + [StatOf(r, rooms[r])], todo - {r};
    }
    StatLeqTotal();
    out := BoundedTop(stats, n, StatLeq);
    forall all | Lists(all, rooms) ensures out == Take(Ranked(all, StatLeq), n) {
      DistinctMultiset(all, stats);
      RankedOrderFree(all, stats, StatLeq);
    }
  }

  datatype SendQueue = SendQueue(depth: nat, user: Option<Name>)

  /** One row of the report. */
  datatype MailboxRow = MailboxRow(id: nat, user: Option<Name>, depth: nat, hwm: nat, percent: real)

  function RowOf(queues: map<nat, SendQueue>, hwm: nat, k: MailboxStat): MailboxRow
  {
    MailboxRow(k.id, if k.id in queues then queues[k.id].user else None, k.depth, hwm,
               if hwm > 0 then k.depth as real / hwm as real * 100.0 else 0.0)
  }

  /** A list of the depth of every queue, each once, in some order. */
  ghost predicate ListsDepths(stats: seq<MailboxStat>, queues: map<nat, SendQueue>)
  {
    Distinct(stats) && Elements(stats) == set id | id in queues :: MailboxStat(id, queues[id].depth)
  }

  /** A row names the queue's user and says which share of the mark it uses, nothing being a share of no mark. */
  lemma RowMeans(queues: map<nat, SendQueue>, hwm: nat, id: nat)
    requires id in queues
    ensures var row := RowOf(queues, hwm, MailboxStat(id, queues[id].depth));
      && row.id == id && row.user == queues[id].user && row.depth == queues[id].depth && row.hwm == hwm
      && (hwm > 0 ==> row.percent * hwm as real == 100.0 * queues[id].depth as real)
      && (hwm == 0 ==> row.percent == 0.0)
  {
  }

  /** The same for the deepest send queues, each with its owner, the mark and the share of it in use. */
  method DeepestMailboxes(queues: map<nat, SendQueue>, hwm: nat, n: nat) returns (out: seq<MailboxRow>)
    ensures forall all | ListsDepths(all, queues) ::
      out == Map(k => RowOf(queues, hwm, k), Take(Ranked(all, DepthLeq), n))
  {
    var stats: seq<MailboxStat> := [];
    var todo := queues.Keys;
    while todo != {}
      invariant todo <= queues.Keys
      invariant Distinct(stats)
      invariant Elements(stats) == set id | id in queues && id !in todo :: MailboxStat(id, queues[id].depth)
    {
      var id :| id in todo;
      var stat := MailboxStat(id, queues[id].depth);
      assert stat !in stats by {
        assert forall s | s in stats :: s in Elements(stats);
      }
      assert Elements(stats + [stat]) == Elements(stats) + {stat};
      stats, todo := stats + [stat], todo - {id};
    }
    DepthLeqTotal();
    var deepest := BoundedTop(stats, n, DepthLeq);
    out := Map(k => RowOf(queues, hwm, k), deepest);
    forall all | ListsDepths(all, queues) ensures deepest == Take(Ranked(all, DepthLeq), n) {
      DistinctMultiset(all, stats);
      RankedOrderFree(all, stats, DepthLeq);
    }
  }
}
