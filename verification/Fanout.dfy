/** Fan-out of one payload into many mailboxes (crates/core/src/broadcast.rs), and the linear version it replaced. */
module Fanout {
  import opened Prelude
  import opened Ordering
  import opened Mailbox
  import opened Wire
  import TopN
  import W = Writer

  const CLOSE_BACKPRESSURE: nat := 1013

  datatype CloseCmd = CloseCmd(code: nat, graceful: bool)

  /** What the registry stores per connection: mailbox, control queue, and the first close signalled. */
  datatype Handle = Handle(box: Box, control: seq<W.Control>, close: Option<CloseCmd>)

  type ConnId = u64

  datatype Report = Report(attempted: nat, queued: nat, backpressured: nat, missing: nat)

  const NO_REPORT := Report(0, 0, 0, 0)

  /** Latch the first close reason and nudge the writer if its queue has room. */
  function InitiateClose(h: Handle, code: nat, graceful: bool): Handle
  {
    h.(close := if h.close.None? then Some(CloseCmd(code, graceful)) else h.close,
       control := if |h.control| < W.CONTROL_QUEUE_CAPACITY then h.control + [W.Close(code)] else h.control)
  }

  function PushHandle(h: Handle, f: Outbound): (Handle, PushOutcome)
  {
    var (b, outcome, _) := Push(h.box, f);
    var h' := h.(box := b);
    (if outcome == Disconnected then InitiateClose(h', CLOSE_BACKPRESSURE, true) else h', outcome)
  }

  /** First close wins: whatever is pushed or closed later, a latched reason stays. */
  lemma CloseIsLatched(h: Handle, f: Outbound, code: nat, graceful: bool)
    ensures h.close.Some? ==> PushHandle(h, f).0.close == h.close && InitiateClose(h, code, graceful).close == h.close
    ensures PushHandle(h, f).1 == Disconnected ==>
      PushHandle(h, f).0.close.Some? && PushHandle(h, f).0.box.closed && PushHandle(PushHandle(h, f).0, f).1 == Closed
    ensures PushHandle(h, f).1 == Disconnected && h.close.None? ==>
      PushHandle(h, f).0.close == Some(CloseCmd(1013, true))
    ensures h.close.None? ==> InitiateClose(h, code, graceful).close == Some(CloseCmd(code, graceful))
    ensures PushHandle(h, f).1 != Disconnected ==>
      PushHandle(h, f).0.close == h.close && PushHandle(h, f).0.control == h.control
  {
  }

  /** A signalled close reaches the writer's queue, behind what is there, unless that queue is full. */
  lemma CloseIsNudged(h: Handle, f: Outbound)
    requires PushHandle(h, f).1 == Disconnected
    ensures var queue := PushHandle(h, f).0.control;
      if |h.control| < 4 then queue == h.control + [W.Close(1013)] else queue == h.control
  {
  }

  function Tally(r: Report, outcome: PushOutcome): Report
  {
    match outcome
    case Queued => r.(queued := r.queued + 1)
    case Closed => r.(missing := r.missing + 1)
    case _ => r.(backpressured := r.backpressured + 1)
  }

  datatype Fan = Fan(conns: map<ConnId, Handle>, report: Report)

  /** One addressed recipient. */
  function Deliver(s: Fan, id: ConnId, f: Outbound): Fan
  {
    if id in s.conns then
      var (h, outcome) := PushHandle(s.conns[id], f);
      var r := Tally(s.report, outcome);
      Fan(s.conns[id := h], r.(attempted := r.attempted + 1))
    else s.(report := s.report.(missing := s.report.missing + 1, attempted := s.report.attempted + 1))
  }

  /** The reference: every id in order, skipping those excepted. */
  function FanOut(s: Fan, ids: seq<ConnId>, f: Outbound, except: set<ConnId>): Fan
    decreases |ids|
  {
    if ids == [] then s
    else FanOut(if ids[0] in except then s else Deliver(s, ids[0], f), ids[1..], f, except)
  }

  // ── what the reference means ──

  lemma {:induction false} ReportBalances(s: Fan, ids: seq<ConnId>, f: Outbound, except: set<ConnId>)
    requires s.report.attempted == s.report.queued + s.report.backpressured + s.report.missing
    ensures var r := FanOut(s, ids, f, except).report; r.attempted == r.queued + r.backpressured + r.missing
    decreases |ids|
  {
    if ids != [] {
      ReportBalances(if ids[0] in except then s else Deliver(s, ids[0], f), ids[1..], f, except);
    }
  }

  /** No connection appears or vanishes. */
  lemma {:induction false} FanOutKeys(s: Fan, ids: seq<ConnId>, f: Outbound, except: set<ConnId>)
    ensures FanOut(s, ids, f, except).conns.Keys == s.conns.Keys
    decreases |ids|
  {
    if ids != [] {
      FanOutKeys(if ids[0] in except then s else Deliver(s, ids[0], f), ids[1..], f, except);
    }
  }

  /** A connection that is not addressed is untouched. */
  lemma {:induction false} FanOutFrame(s: Fan, ids: seq<ConnId>, f: Outbound, except: set<ConnId>, id: ConnId)
    requires id !in ids || id in except
    ensures var conns := FanOut(s, ids, f, except).conns; id in s.conns ==> id in conns && conns[id] == s.conns[id]
    decreases |ids|
  {
    if ids != [] {
      FanOutFrame(if ids[0] in except then s else Deliver(s, ids[0], f), ids[1..], f, except, id);
    }
  }

  /** Each addressed live connection receives exactly one push of the payload. */
  lemma {:induction false} FanOutOnce(s: Fan, ids: seq<ConnId>, f: Outbound, except: set<ConnId>, id: ConnId)
    requires Distinct(ids) && id in ids && id !in except && id in s.conns
    ensures var s' := FanOut(s, ids, f, except); id in s'.conns && s'.conns[id] == PushHandle(s.conns[id], f).0
    decreases |ids|
  {
    var s1 := if ids[0] in except then s else Deliver(s, ids[0], f);
    if ids[0] == id {
      assert id !in ids[1..];
      FanOutFrame(s1, ids[1..], f, except, id);
    } else {
      FanOutOnce(s1, ids[1..], f, except, id);
    }
  }

  lemma CountFirst(ids: seq<ConnId>, except: set<ConnId>)
    requires Distinct(ids) && ids != []
    ensures |Elements(ids) - except| == (if ids[0] in except then 0 else 1) + |Elements(ids[1..]) - except|
  {
    var first, rest := ids[0], Elements(ids[1..]) - except;
    assert ids == [first] + ids[1..];
    assert first !in ids[1..];
    assert Elements(ids) - except == if first in except then rest else {first} + rest;
  }

  /** Recipients addressed: those listed and not excepted. */
  lemma {:induction false} FanOutAttempted(s: Fan, ids: seq<ConnId>, f: Outbound, except: set<ConnId>)
    requires Distinct(ids)
    ensures FanOut(s, ids, f, except).report.attempted == s.report.attempted + |Elements(ids) - except|
    decreases |ids|
  {
    if ids != [] {
      FanOutAttempted(if ids[0] in except then s else Deliver(s, ids[0], f), ids[1..], f, except);
      CountFirst(ids, except);
    }
  }

  /** The mailbox is open and has room for the frame. */
  predicate Takes(conns: map<ConnId, Handle>, id: ConnId, f: Outbound)
  {
    id in conns && !conns[id].box.closed && !Overflows(conns[id].box, f)
  }

  /** There is no such connection, or its mailbox is closed. */
  predicate Absent(conns: map<ConnId, Handle>, id: ConnId)
  {
    id !in conns || conns[id].box.closed
  }

  lemma DeliverCounts(s: Fan, id: ConnId, f: Outbound)
    ensures var r, r' := s.report, Deliver(s, id, f).report;
      && r'.queued == r.queued + (if Takes(s.conns, id, f) then 1 else 0)
      && r'.missing == r.missing + (if Absent(s.conns, id) then 1 else 0)
      && r'.backpressured == r.backpressured + (if Takes(s.conns, id, f) || Absent(s.conns, id) then 0 else 1)
  {
  }

  /** The recipients addressed whose mailbox takes the frame, and those that are absent. */
  function Takers(conns: map<ConnId, Handle>, ids: seq<ConnId>, f: Outbound, except: set<ConnId>): set<ConnId>
  {
    set id | id in ids && id !in except && Takes(conns, id, f)
  }

  function Absentees(conns: map<ConnId, Handle>, ids: seq<ConnId>, except: set<ConnId>): set<ConnId>
  {
    set id | id in ids && id !in except && Absent(conns, id)
  }

  lemma OneMore(whole: set<ConnId>, rest: set<ConnId>, first: ConnId, more: bool)
    requires first !in rest && forall id :: id in whole <==> id in rest || (id == first && more)
    ensures |whole| == |rest| + (if more then 1 else 0)
  {
    assert whole == if more then {first} + rest else rest;
  }

  lemma FirstTaker(conns: map<ConnId, Handle>, conns': map<ConnId, Handle>, ids: seq<ConnId>, f: Outbound,
    except: set<ConnId>)
    requires Distinct(ids) && ids != [] && forall id | id in ids[1..] :: Takes(conns', id, f) == Takes(conns, id, f)
    ensures |Takers(conns, ids, f, except)| == |Takers(conns', ids[1..], f, except)| +
      (if ids[0] !in except && Takes(conns, ids[0], f) then 1 else 0)
  {
    var first, rest := ids[0], Takers(conns', ids[1..], f, except);
    assert ids == [first] + ids[1..] && first !in ids[1..];
    OneMore(Takers(conns, ids, f, except), rest, first, first !in except && Takes(conns, first, f));
  }

  lemma FirstAbsentee(conns: map<ConnId, Handle>, conns': map<ConnId, Handle>, ids: seq<ConnId>, except: set<ConnId>)
    requires Distinct(ids) && ids != [] && forall id | id in ids[1..] :: Absent(conns', id) == Absent(conns, id)
    ensures |Absentees(conns, ids, except)| == |Absentees(conns', ids[1..], except)| +
      (if ids[0] !in except && Absent(conns, ids[0]) then 1 else 0)
  {
    var first, rest := ids[0], Absentees(conns', ids[1..], except);
    assert ids == [first] + ids[1..] && first !in ids[1..];
    OneMore(Absentees(conns, ids, except), rest, first, first !in except && Absent(conns, first));
  }

  /** A push to one recipient decides about no other. */
  lemma OthersStay(s: Fan, id: ConnId, f: Outbound, other: ConnId)
    requires other != id
    ensures var conns := Deliver(s, id, f).conns;
      (other in conns <==> other in s.conns) && (other in conns ==> conns[other] == s.conns[other])
  {
  }

  /**
   * What the report means: queued counts the recipients whose mailbox took the frame, missing those that are gone or
   * closed, and backpressured the rest, those whose mailbox overflowed.
   */
  lemma {:induction false} ReportMeans(s: Fan, ids: seq<ConnId>, f: Outbound, except: set<ConnId>)
    requires Distinct(ids)
    ensures var r, r' := s.report, FanOut(s, ids, f, except).report;
      && r'.queued == r.queued + |Takers(s.conns, ids, f, except)|
      && r'.missing == r.missing + |Absentees(s.conns, ids, except)|
      && r'.backpressured == r.backpressured +
        |Elements(ids) - except| - |Takers(s.conns, ids, f, except)| - |Absentees(s.conns, ids, except)|
    decreases |ids|
  {
    if ids != [] {
      var s1 := if ids[0] in except then s else Deliver(s, ids[0], f);
      ReportMeans(s1, ids[1..], f, except);
      DeliverCounts(s, ids[0], f);
      forall id | id in ids[1..]
        ensures Takes(s1.conns, id, f) == Takes(s.conns, id, f) && Absent(s1.conns, id) == Absent(s.conns, id)
      {
        OthersStay(s, ids[0], f, id);
      }
      FirstTaker(s.conns, s1.conns, ids, f, except);
      FirstAbsentee(s.conns, s1.conns, ids, except);
      CountFirst(ids, except);
    }
  }

  // ── the exclusion index ──

  datatype Exclusions = Linear(ids: seq<ConnId>) | Sorted(ids: seq<ConnId>)

  predicate Above(a: ConnId, b: ConnId)
  {
    b <= a
  }

  /** A list sorted for binary search pays off only for long lists and many recipients. */
  method NewExclusions(except: seq<ConnId>, recipients: nat) returns (x: Exclusions)
    ensures Elements(x.ids) == Elements(except)
    ensures x.Sorted? <==> |except| >= 32 && recipients >= 64 && recipients >= |except|
    ensures x.Sorted? ==> forall i, j | 0 <= i < j < |x.ids| :: x.ids[i] <= x.ids[j]
  {
    if |except| >= 32 && recipients >= 64 && recipients >= |except| {
      assert TotalOrder(Above);
      var sorted := TopN.SortRanked(except, Above);
      TopN.RankedFacts(except, Above);
      assert forall i, j | 0 <= i < j < |sorted| :: Above(sorted[j], sorted[i]);
      assert forall y :: (y in sorted <==> y in multiset(sorted)) && (y in except <==> y in multiset(except));
      return Sorted(sorted);
    }
    return Linear(except);
  }

  method Contains(x: Exclusions, id: ConnId) returns (found: bool)
    requires x.Sorted? ==> forall i, j | 0 <= i < j < |x.ids| :: x.ids[i] <= x.ids[j]
    ensures found <==> id in x.ids
  {
    if x.Linear? {
      return id in x.ids;
    }
    var lo, hi := 0, |x.ids|;
    while lo < hi
      invariant 0 <= lo <= hi <= |x.ids|
      invariant forall i | 0 <= i < lo :: x.ids[i] < id
      invariant forall i | hi <= i < |x.ids| :: x.ids[i] > id
    {
      var mid := lo + (hi - lo) / 2;
      if x.ids[mid] == id {
        return true;
      } else if x.ids[mid] < id {
        lo := mid + 1;
      } else {
        hi := mid;
      }
    }
    return false;
  }

  /** The shipped loop: index the exclusions once, then probe per recipient. */
  method FanOutAdaptive(conns: map<ConnId, Handle>, ids: seq<ConnId>, f: Outbound, except: seq<ConnId>, report: Report)
    returns (s: Fan)
    ensures s == FanOut(Fan(conns, report), ids, f, Elements(except))
  {
    var x := NewExclusions(except, |ids|);
    assert forall id :: (id in x.ids <==> id in Elements(x.ids));
    s := Fan(conns, report);
    for i := 0 to |ids|
      invariant FanOut(Fan(conns, report), ids, f, Elements(except)) == FanOut(s, ids[i..], f, Elements(except))
    {
      assert ids[i..][1..] == ids[i + 1..];
      var skip := Contains(x, ids[i]);
      if skip {
        continue;
      }
      var report := s.report;
      var live := s.conns;
      if ids[i] in live {
        var (h, outcome) := PushHandle(live[ids[i]], f);
        live := live[ids[i] := h];
        report := Tally(report, outcome);
      } else {
        report := report.(missing := report.missing + 1);
      }
      report := report.(attempted := report.attempted + 1);
      s := Fan(live, report);
    }
  }

  /** The frozen loop: scan the exclusion list for every recipient, close by hand on a Disconnect. */
  method FanOutLinear(conns: map<ConnId, Handle>, ids: seq<ConnId>, f: Outbound, except: seq<ConnId>, report: Report)
    returns (s: Fan)
    ensures s == FanOut(Fan(conns, report), ids, f, Elements(except))
  {
    s := Fan(conns, report);
    for i := 0 to |ids|
      invariant FanOut(Fan(conns, report), ids, f, Elements(except)) == FanOut(s, ids[i..], f, Elements(except))
    {
      assert ids[i..][1..] == ids[i + 1..];
      var skip := false;
      for k := 0 to |except|
        invariant skip <==> ids[i] in except[..k]
      {
        assert except[..k + 1] == except[..k] + [except[k]];
        skip := skip || except[k] == ids[i];
      }
      assert except[..|except|] == except;
      if skip {
        continue;
      }
      if ids[i] in s.conns {
        var (b, outcome, _) := Push(s.conns[ids[i]].box, f);
        var h := s.conns[ids[i]].(box := b);
        match outcome {
          case Queued =>
            s := s.(conns := s.conns[ids[i] := h], report := s.report.(queued := s.report.queued + 1));
          case Disconnected =>
            h := InitiateClose(h, CLOSE_BACKPRESSURE, true);
            s := s.(conns := s.conns[ids[i] := h], report := s.report.(backpressured := s.report.backpressured + 1));
          case Closed =>
            s := s.(conns := s.conns[ids[i] := h], report := s.report.(missing := s.report.missing + 1));
          case _ =>
            s := s.(conns := s.conns[ids[i] := h], report := s.report.(backpressured := s.report.backpressured + 1));
        }
      } else {
        s := s.(report := s.report.(missing := s.report.missing + 1));
      }
      s := s.(report := s.report.(attempted := s.report.attempted + 1));
    }
  }

  /** For all inputs the two loops leave the same report, mailboxes and close signals. */
  method CompareFanOuts(conns: map<ConnId, Handle>, ids: seq<ConnId>, f: Outbound, except: seq<ConnId>)
    returns (adaptive: Fan, linear: Fan)
    ensures adaptive == linear
    ensures adaptive.report.attempted ==
      adaptive.report.queued + adaptive.report.backpressured + adaptive.report.missing
  {
    adaptive := FanOutAdaptive(conns, ids, f, except, NO_REPORT);
    linear := FanOutLinear(conns, ids, f, except, NO_REPORT);
    ReportBalances(Fan(conns, NO_REPORT), ids, f, Elements(except));
  }
}
