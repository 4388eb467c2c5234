/** What the writer does with control commands, and when it stops (crates/core/src/connection/mod.rs). */
module WriterControl {
  import opened Mailbox
  import opened Writer

  // ── commands ──

  /** The command a frame carries out, if it is a control frame. */
  function CommandOf(x: OutFrame): seq<Control>
  {
    if x.PingFrame? then [Ping] else if x.CloseFrame? then [Close(x.code)] else []
  }

  /** The commands carried out by the control frames on the wire. */
  function Commands(wire: seq<OutFrame>): seq<Control>
  {
    if wire == [] then [] else Commands(wire[..|wire| - 1]) + CommandOf(wire[|wire| - 1])
  }

  lemma CommandsSnoc(wire: seq<OutFrame>, x: OutFrame)
    ensures Commands(wire + [x]) == Commands(wire) + CommandOf(x)
  {
    assert (wire + [x])[..|wire|] == wire;
  }

  /** How many commands the writer has taken off its queue. */
  function Handled(c: Conn): int
  {
    |c.asked| - |c.control|
  }

  predicate CloseAmong(cmds: seq<Control>)
  {
    exists cmd | cmd in cmds :: cmd.Close?
  }

  lemma CloseAmongSnoc(cmds: seq<Control>, cmd: Control)
    ensures CloseAmong(cmds + [cmd]) <==> CloseAmong(cmds) || cmd.Close?
  {
    assert cmd in cmds + [cmd] && forall x | x in cmds :: x in cmds + [cmd];
  }

  /** The wire carries out the commands taken, up to a close or a failure. */
  predicate Agrees(taken: seq<Control>, wire: seq<OutFrame>, closeSent: bool, failed: bool)
  {
    && Commands(wire) <= taken
    && (closeSent <==> CloseAmong(taken))
    && (!closeSent && !failed ==> Commands(wire) == taken)
  }

  ghost predicate Obeys(c: Conn)
  {
    && 0 <= Handled(c) && c.control == c.asked[Handled(c)..]
    && Agrees(c.asked[..Handled(c)], c.wire, c.closeSent, c.failed)
    && (c.failed ==> c.stopped)
  }

  lemma TakenAfterClose(taken: seq<Control>, cmd: Control, wire: seq<OutFrame>, failed: bool)
    requires Agrees(taken, wire, true, failed)
    ensures Agrees(taken + [cmd], wire, true, failed)
  {
    CloseAmongSnoc(taken, cmd);
  }

  lemma TakenAndWritten(taken: seq<Control>, cmd: Control, wire: seq<OutFrame>, x: OutFrame)
    requires Agrees(taken, wire, false, false) && CommandOf(x) == [cmd]
    ensures Agrees(taken + [cmd], wire + [x], cmd.Close?, false)
  {
    CloseAmongSnoc(taken, cmd);
    CommandsSnoc(wire, x);
  }

  lemma TakenAndRefused(taken: seq<Control>, cmd: Control, wire: seq<OutFrame>)
    requires Agrees(taken, wire, false, false)
    ensures Agrees(taken + [cmd], wire, cmd.Close?, cmd.Ping?)
  {
    CloseAmongSnoc(taken, cmd);
  }

  lemma TakeControlKeepsObeys(c: Conn, ok: bool)
    requires Obeys(c) && Enabled(c, TakeControl(ok))
    ensures Obeys(Next(c, TakeControl(ok)))
  {
    var c', cmd, taken := Next(c, TakeControl(ok)), c.control[0], c.asked[..Handled(c)];
    assert c'.asked == c.asked && c'.control == c.control[1..];
    assert c.asked[..Handled(c')] == taken + [cmd];
    if c.closeSent {
      TakenAfterClose(taken, cmd, c.wire, c.failed);
    } else if ok {
      TakenAndWritten(taken, cmd, c.wire, if cmd.Ping? then PingFrame else CloseFrame(cmd.code));
    } else {
      TakenAndRefused(taken, cmd, c.wire);
    }
  }

  lemma TakeFrameKeepsObeys(c: Conn, ok: bool)
    requires Obeys(c) && Enabled(c, TakeFrame(ok))
    ensures Obeys(Next(c, TakeFrame(ok)))
  {
    CommandsSnoc(c.wire, Data(c.box.items[0]));
  }

  lemma TrySendKeepsObeys(c: Conn, cmd: Control)
    requires Obeys(c)
    ensures Obeys(Next(c, TrySend(cmd)))
  {
    assert Next(c, TrySend(cmd)).asked[..Handled(c)] == c.asked[..Handled(c)];
  }

  lemma StepKeepsObeys(c: Conn, step: Step)
    requires Obeys(c) && Enabled(c, step)
    ensures Obeys(Next(c, step))
  {
    match step
    case TakeControl(ok) => TakeControlKeepsObeys(c, ok);
    case TakeFrame(ok) => TakeFrameKeepsObeys(c, ok);
    case TrySend(cmd) => TrySendKeepsObeys(c, cmd);
    case _ =>
  }

  lemma {:induction false} RunKeepsObeys(a: Conn, steps: seq<Step>, b: Conn)
    requires Obeys(a) && Run(a, steps, b)
    ensures Obeys(b)
    decreases |steps|
  {
    if steps != [] {
      StepKeepsObeys(a, steps[0]);
      RunKeepsObeys(Next(a, steps[0]), steps[1..], b);
    }
  }

  /** The sink takes whatever the step writes. */
  predicate SinkTakes(step: Step)
  {
    (step.TakeControl? || step.TakeFrame?) ==> step.ok
  }

  ghost predicate CloseWritten(c: Conn)
  {
    !c.failed && (c.closeSent ==> c.wire != [] && c.wire[|c.wire| - 1].CloseFrame?)
  }

  lemma {:induction false} RunKeepsCloseWritten(a: Conn, steps: seq<Step>, b: Conn)
    requires CloseWritten(a) && Run(a, steps, b) && forall step | step in steps :: SinkTakes(step)
    ensures CloseWritten(b)
    decreases |steps|
  {
    if steps != [] {
      assert SinkTakes(steps[0]);
      RunKeepsCloseWritten(Next(a, steps[0]), steps[1..], b);
    }
  }

  /**
   * In every history of a connection control commands are taken in the order they were queued, and the control frames
   * on the wire carry out the first of them, all those taken until a close is sent or the sink fails. The writer has
   * sent its close exactly if it has taken one; and with a sink that takes every frame, that close is the last frame.
   */
  lemma CommandsObeyed(hwm: nat, policy: Policy, steps: seq<Step>, c: Conn)
    requires Run(New(hwm, policy), steps, c)
    ensures |c.control| <= |c.asked|
    ensures var taken := c.asked[..|c.asked| - |c.control|];
      && c.asked == taken + c.control
      && Commands(c.wire) <= taken
      && (c.closeSent <==> exists cmd :: cmd in taken && cmd.Close?)
      && (!c.closeSent && !c.failed ==> Commands(c.wire) == taken)
    ensures c.closeSent && (forall step | step in steps :: SinkTakes(step)) ==>
      c.wire != [] && c.wire[|c.wire| - 1].CloseFrame?
  {
    RunKeepsObeys(New(hwm, policy), steps, c);
    if forall step | step in steps :: SinkTakes(step) {
      RunKeepsCloseWritten(New(hwm, policy), steps, c);
    }
  }

  // ── stopping ──

  /** The loop ends: its control queue is gone, the closed mailbox is empty, or the sink refuses a frame or a ping. */
  predicate Stops(c: Conn, step: Step)
    requires Enabled(c, step)
  {
    match step
    case ControlGone => true
    case Drained => true
    case TakeFrame(ok) => !ok && !c.closeSent
    case TakeControl(ok) => !ok && !c.closeSent && c.control[0].Ping?
    case _ => false
  }

  lemma {:induction false} StoppedStays(a: Conn, steps: seq<Step>, b: Conn)
    requires a.stopped && Run(a, steps, b)
    ensures b.stopped && b.wire == a.wire && b.popped == a.popped
    decreases |steps|
  {
    if steps != [] {
      StoppedStays(Next(a, steps[0]), steps[1..], b);
    }
  }

  /** Only these steps end the loop, and once ended it writes nothing and takes nothing, whatever is still pushed. */
  lemma StopIsFinal(a: Conn, step: Step, steps: seq<Step>, b: Conn)
    requires Enabled(a, step) && !a.stopped && Run(Next(a, step), steps, b)
    ensures Next(a, step).stopped <==> Stops(a, step)
    ensures Stops(a, step) ==> b.stopped && b.wire == a.wire && b.popped == Next(a, step).popped
  {
    if Stops(a, step) {
      StoppedStays(Next(a, step), steps, b);
    }
  }
}
