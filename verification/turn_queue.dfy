/** Queue, steer and cancel: the input queue of a conversation and the bridge that drives it. */
module TurnQueues {
  import opened Foundation
  import opened Text

  const MAX_QUEUE_DEPTH: nat := 64
  const MAX_MESSAGE_BYTES: nat := 8 * 1024

  datatype Activity = Idle | ModelInFlight | ToolRunning

  datatype InboundKind = Plain | Steer | Command | Cancel

  datatype Inbound = Inbound(kind: InboundKind, text: string)

  datatype Disposition = Queued | SteerCancelModel | SteerBuffered | CancelRun | RunCommand | DroppedFull

  function Parse(raw: string): Inbound {
    var trimmed := Trim(raw);
    if "!" <= trimmed then Inbound(Steer, Fit(Trim(trimmed[1..]), MAX_MESSAGE_BYTES))
    else if "/steer" <= trimmed then Inbound(Steer, Fit(Trim(trimmed[6..]), MAX_MESSAGE_BYTES))
    else if trimmed == "/cancel" || "/cancel " <= trimmed then Inbound(Cancel, "")
    else if "/" <= trimmed then Inbound(Command, Fit(trimmed, MAX_MESSAGE_BYTES))
    else Inbound(Plain, Fit(trimmed, MAX_MESSAGE_BYTES))
  }

  /** How a message is read: by its first characters once blanks around it are gone. A steer loses
      its mark and the blanks around the rest; every text is cut to 8 KiB. */
  lemma ParseIs(raw: string)
    ensures var t, i := Trim(raw), Parse(raw);
            && (i.kind.Steer? <==> "!" <= t || "/steer" <= t)
            && (i.kind.Cancel? <==> t == "/cancel" || "/cancel " <= t)
            && (i.kind.Command? <==> "/" <= t && !("/steer" <= t) && t != "/cancel" && !("/cancel " <= t))
            && ("!" <= t ==> i.text == Fit(Trim(t[1..]), 8192))
            && ("/steer" <= t ==> i.text == Fit(Trim(t[6..]), 8192))
            && (i.kind.Cancel? ==> i.text == "")
            && (i.kind.Command? || i.kind.Plain? ==> i.text == Fit(t, 8192))
  {
    var t := Trim(raw);
    assert "/steer"[0] == '/' && "/cancel"[0] == '/' && "/cancel "[0] == '/' && "!"[0] == '!';
    assert "/steer"[1] == 's' && "/cancel"[1] == 'c' && "/cancel "[1] == 'c';
    assert "/steer" <= t ==> t[0] == "/steer"[0] && t[1] == "/steer"[1];
    assert "/cancel " <= t ==> t[0] == "/cancel "[0] && t[1] == "/cancel "[1];
    assert "!" <= t ==> t[0] == "!"[0];
    assert "/" <= t <==> t != [] && t[0] == '/';
  }

  // ----- the queue as one deque -----

  /** Where an admitted message goes. */
  datatype Place = Front | Back | Nowhere

  function PlaceOf(i: Inbound, a: Activity, size: nat, max: nat): Place {
    match i.kind
    case Cancel => Nowhere
    case Command => Nowhere
    case Plain => if size >= max then Nowhere else Back
    case Steer =>
      if !a.ToolRunning? then Front else if size >= max then Nowhere else Back
  }

  function DispositionOf(i: Inbound, a: Activity, size: nat, max: nat): Disposition {
    match i.kind
    case Cancel => CancelRun
    case Command => RunCommand
    case Plain => if size >= max then DroppedFull else Queued
    case Steer =>
      if !a.ToolRunning? then SteerCancelModel else if size >= max then DroppedFull else SteerBuffered
  }

  function Placed(queue: seq<string>, p: Place, text: string): seq<string> {
    match p
    case Front => [text] + queue
    case Back => queue + [text]
    case Nowhere => queue
  }

  /** What an admission signals, and what each signal means for the queue: a cancelled model call
      puts the steer in front, a queued turn or a buffered steer goes behind, and everything else
      leaves the queue alone. */
  lemma AdmitSays(i: Inbound, a: Activity, queue: seq<string>, max: nat)
    ensures var d, room := DispositionOf(i, a, |queue|, max), |queue| < max;
            && (d == SteerCancelModel <==> i.kind.Steer? && !a.ToolRunning?)
            && (d == SteerBuffered <==> i.kind.Steer? && a.ToolRunning? && room)
            && (d == Queued <==> i.kind.Plain? && room)
            && (d == DroppedFull <==> (i.kind.Plain? || (i.kind.Steer? && a.ToolRunning?)) && !room)
            && (d == CancelRun <==> i.kind.Cancel?)
            && (d == RunCommand <==> i.kind.Command?)
            && Placed(queue, PlaceOf(i, a, |queue|, max), i.text)
               == (if d == SteerCancelModel then [i.text] + queue
                   else if d == SteerBuffered || d == Queued then queue + [i.text]
                   else queue)
  {
  }

  class TurnQueue {
    var queue: seq<string>
    const max: nat

    constructor WithMax(max: nat)
      ensures queue == [] && this.max == Min(Max(max, 1), 64)
    {
      queue := [];
      this.max := Min(Max(max, 1), MAX_QUEUE_DEPTH);
    }

    /** A steer jumps to the front unless a tool is running; a running tool is never cancelled
        by a steer, which is then buffered behind the queue. */
    method Admit(i: Inbound, a: Activity) returns (d: Disposition)
      modifies this
      ensures queue == Placed(old(queue), PlaceOf(i, a, |old(queue)|, max), i.text)
      ensures d == DispositionOf(i, a, |old(queue)|, max)
      ensures d == SteerCancelModel ==> !a.ToolRunning?
    {
      match i.kind {
        case Cancel => return CancelRun;
        case Command => return RunCommand;
        case Plain =>
          if |queue| >= max { return DroppedFull; }
          queue := queue + [i.text];
          return Queued;
        case Steer =>
          match a {
            case ToolRunning =>
              if |queue| >= max { return DroppedFull; }
              queue := queue + [i.text];
              return SteerBuffered;
            case _ =>
              queue := [i.text] + queue;
              return SteerCancelModel;
          }
      }
    }

    method PopNext() returns (next: Option<string>)
      modifies this
      ensures if old(queue) == [] then next == None && queue == []
              else next == Some(old(queue)[0]) && queue == old(queue)[1..]
    {
      if queue == [] { return None; }
      next := Some(queue[0]);
      queue := queue[1..];
    }

    method Clear()
      modifies this
      ensures queue == []
    {
      queue := [];
    }
  }

  // ----- runs of the queue -----

  datatype Op = Admitting(i: Inbound, a: Activity) | Popping | Clearing

  /** The deque and everything popped from it. */
  datatype Deque = Deque(queue: seq<string>, popped: seq<string>)

  function Do(d: Deque, op: Op, max: nat): Deque {
    match op
    case Admitting(i, a) => d.(queue := Placed(d.queue, PlaceOf(i, a, |d.queue|, max), i.text))
    case Popping => if d.queue == [] then d else Deque(d.queue[1..], d.popped + [d.queue[0]])
    case Clearing => d.(queue := [])
  }

  function DoAll(ops: seq<Op>, max: nat): Deque {
    if ops == [] then Deque([], []) else Do(DoAll(ops[..|ops| - 1], max), ops[|ops| - 1], max)
  }

  /** The reference: a stack of steers served before a queue of turns. `turnsIn` and `turnsOut`
      are the turns queued and served since the last clear; the multisets cover the whole run. */
  datatype Lanes = Lanes(steers: seq<string>, turns: seq<string>, turnsIn: seq<string>, turnsOut: seq<string>,
                         served: seq<string>, admitted: multiset<string>, dropped: multiset<string>)

  const NO_LANES := Lanes([], [], [], [], [], multiset{}, multiset{})

  function Serve(l: Lanes, op: Op, max: nat): Lanes {
    match op
    case Admitting(i, a) =>
      if i.kind.Steer? && !a.ToolRunning? then
        l.(steers := [i.text] + l.steers, admitted := l.admitted + multiset{i.text})
      else if (i.kind.Plain? || i.kind.Steer?) && |l.steers| + |l.turns| < max then
        l.(turns := l.turns + [i.text], turnsIn := l.turnsIn + [i.text], admitted := l.admitted + multiset{i.text})
      else l
    case Popping =>
      if l.steers != [] then l.(steers := l.steers[1..], served := l.served + [l.steers[0]])
      else if l.turns != [] then
        l.(turns := l.turns[1..], turnsOut := l.turnsOut + [l.turns[0]], served := l.served + [l.turns[0]])
      else l
    case Clearing =>
      l.(steers := [], turns := [], turnsIn := [], turnsOut := [],
         dropped := l.dropped + multiset(l.steers) + multiset(l.turns))
  }

  function ServeAll(ops: seq<Op>, max: nat): Lanes {
    if ops == [] then NO_LANES else Serve(ServeAll(ops[..|ops| - 1], max), ops[|ops| - 1], max)
  }

  ghost predicate LanesOk(l: Lanes, max: nat) {
    && l.turnsIn == l.turnsOut + l.turns
    && |l.turns| <= max
    && l.admitted == multiset(l.served) + multiset(l.steers) + multiset(l.turns) + l.dropped
  }

  lemma HeadCount(s: seq<string>)
    requires s != []
    ensures multiset(s) == multiset{s[0]} + multiset(s[1..])
  {
    assert s == [s[0]] + s[1..];
  }

  lemma PopOk(l: Lanes, max: nat)
    requires LanesOk(l, max)
    ensures LanesOk(Serve(l, Popping, max), max)
  {
    if l.steers != [] {
      HeadCount(l.steers);
      assert multiset(l.served + [l.steers[0]]) == multiset(l.served) + multiset{l.steers[0]};
    } else if l.turns != [] {
      HeadCount(l.turns);
      assert multiset(l.served + [l.turns[0]]) == multiset(l.served) + multiset{l.turns[0]};
      assert l.turns == [l.turns[0]] + l.turns[1..];
      Assoc(l.turnsOut, [l.turns[0]], l.turns[1..]);
    }
  }

  lemma FrontOk(l: Lanes, x: string, max: nat)
    requires LanesOk(l, max)
    ensures LanesOk(l.(steers := [x] + l.steers, admitted := l.admitted + multiset{x}), max)
  {
    assert multiset([x] + l.steers) == multiset{x} + multiset(l.steers);
  }

  lemma BackOk(l: Lanes, x: string, max: nat)
    requires LanesOk(l, max) && |l.turns| < max
    ensures LanesOk(l.(turns := l.turns + [x], turnsIn := l.turnsIn + [x], admitted := l.admitted + multiset{x}), max)
  {
    assert multiset(l.turns + [x]) == multiset(l.turns) + multiset{x};
    Assoc(l.turnsOut, l.turns, [x]);
  }

  lemma AdmitOk(l: Lanes, i: Inbound, a: Activity, max: nat)
    requires LanesOk(l, max)
    ensures LanesOk(Serve(l, Admitting(i, a), max), max)
  {
    hide LanesOk;
    FewTurns(l, max);
    if i.kind.Steer? && !a.ToolRunning? {
      FrontOk(l, i.text, max);
    } else if (i.kind.Plain? || i.kind.Steer?) && |l.steers| + |l.turns| < max {
      BackOk(l, i.text, max);
    }
  }

  lemma FewTurns(l: Lanes, max: nat)
    requires LanesOk(l, max)
    ensures |l.turns| <= max
  {
  }

  lemma ServeOk(l: Lanes, op: Op, max: nat)
    requires LanesOk(l, max)
    ensures LanesOk(Serve(l, op, max), max)
  {
    match op
    case Popping => PopOk(l, max);
    case Admitting(i, a) => AdmitOk(l, i, a, max);
    case Clearing =>
  }

  lemma DequeServes(d: Deque, l: Lanes, op: Op, max: nat)
    requires d.queue == l.steers + l.turns && d.popped == l.served
    ensures var d', l' := Do(d, op, max), Serve(l, op, max); d'.queue == l'.steers + l'.turns && d'.popped == l'.served
  {
  }

  /** Over every run of admissions, pops and clears the deque serves exactly like a stack of
      steers ahead of a first-in-first-out queue of turns: turns come out in the order they were
      queued, every admitted turn is served, pending or was dropped by a clear, and at most `max`
      queued turns are pending (only steers can take the length past it). */
  lemma {:induction false} TurnDelivery(ops: seq<Op>, max: nat)
    ensures var d, l := DoAll(ops, max), ServeAll(ops, max);
            && d.queue == l.steers + l.turns && d.popped == l.served
            && LanesOk(l, max)
            && l.admitted == multiset(d.popped) + multiset(d.queue) + l.dropped
  {
    if ops != [] {
      hide Do, Serve, LanesOk;
      var front, op := ops[..|ops| - 1], ops[|ops| - 1];
      TurnDelivery(front, max);
      DequeServes(DoAll(front, max), ServeAll(front, max), op, max);
      ServeOk(ServeAll(front, max), op, max);
      CountsLanes(ServeAll(ops, max), max);
    }
  }

  lemma CountsLanes(l: Lanes, max: nat)
    requires LanesOk(l, max)
    ensures l.admitted == multiset(l.served) + multiset(l.steers + l.turns) + l.dropped
  {
  }

  // ----- the session and the bridge -----

  class ChatSession {
    const queue: TurnQueue
    var activity: Activity

    constructor ()
      ensures fresh(queue) && queue.queue == [] && queue.max == 64 && activity == Idle
    {
      queue := new TurnQueue.WithMax(MAX_QUEUE_DEPTH);
      activity := Idle;
    }

    method Submit(raw: string) returns (d: Disposition)
      modifies queue
      ensures var place := PlaceOf(Parse(raw), activity, |old(queue.queue)|, queue.max);
              queue.queue == Placed(old(queue.queue), place, Parse(raw).text)
      ensures d == DispositionOf(Parse(raw), activity, |old(queue.queue)|, queue.max)
    {
      d := queue.Admit(Parse(raw), activity);
    }

    method NextTurn() returns (next: Option<string>)
      modifies queue
      ensures if old(queue.queue) == [] then next == None && queue.queue == []
              else next == Some(old(queue.queue)[0]) && queue.queue == old(queue.queue)[1..]
    {
      next := queue.PopNext();
    }

    /** Aborts the run but keeps the conversation. */
    method CancelRun()
      modifies this, queue
      ensures queue.queue == [] && activity == Idle
    {
      queue.Clear();
      activity := Idle;
    }
  }

  datatype RuntimeEvent =
    | CommandEvent | ApprovalCallback | SteerButton | SteerText(text: string) | QueuedTurn(text: string)

  /** What the bridge hands on: a turn's text to answer or start, or nothing. */
  datatype Reply = Handled(turn: string) | Quiet | ToCommands | ToApprovals

  function Raw(text: string, steer: bool): string {
    if steer && !("!" <= text) then "!" + text else text
  }

  /** The turn a raw message stands for, if it is one. */
  function TurnOf(raw: string): Reply {
    var i := Parse(raw);
    if i.kind.Plain? || i.kind.Steer? then Handled(i.text) else Quiet
  }

  function ReplyTo(e: RuntimeEvent, armed: bool): Reply {
    match e
    case CommandEvent => ToCommands
    case ApprovalCallback => ToApprovals
    case SteerButton => Quiet
    case SteerText(text) => TurnOf(Raw(text, true))
    case QueuedTurn(text) => TurnOf(Raw(text, armed))
  }

  class ChatBridge {
    const session: ChatSession
    var steerArmed: bool

    ghost predicate Settled()
      reads this, session, session.queue
    {
      session.queue.queue == [] && session.activity == Idle && session.queue.max > 0
    }

    constructor ()
      ensures fresh(session) && fresh(session.queue) && Settled() && !steerArmed
    {
      session := new ChatSession();
      steerArmed := false;
    }

    /** Between dispatches the queue is empty, and the turn handled is exactly the one submitted. */
    method Dispatch(e: RuntimeEvent) returns (r: Reply)
      requires Settled()
      modifies this, session.queue
      ensures Settled() && r == ReplyTo(e, old(steerArmed))
      ensures steerArmed == (e.SteerButton? || (old(steerArmed) && !e.QueuedTurn?))
    {
      match e {
        case CommandEvent => return ToCommands;
        case ApprovalCallback => return ToApprovals;
        case SteerButton =>
          steerArmed := true;
          return Quiet;
        case SteerText(text) => r := Turn(text, true);
        case QueuedTurn(text) =>
          if steerArmed {
            steerArmed := false;
            r := Turn(text, true);
          } else {
            r := Turn(text, false);
          }
      }
    }

    method Turn(text: string, steer: bool) returns (r: Reply)
      requires Settled()
      modifies session.queue
      ensures Settled() && r == TurnOf(Raw(text, steer))
    {
      hide Parse;
      var raw := if steer && !("!" <= text) then "!" + text else text;
      var disposition := session.Submit(raw);
      var next := session.NextTurn();
      match next {
        case Some(turn) => return Handled(turn);
        case None => return Quiet;
      }
    }
  }

  /** What the bridge answers: commands and approvals go elsewhere, the button answers nothing, a turn
      after the button is a steer of the same text, and one without it is read as it stands. */
  lemma BridgeAnswers(text: string, armed: bool)
    ensures ReplyTo(CommandEvent, armed) == ToCommands && ReplyTo(ApprovalCallback, armed) == ToApprovals
    ensures ReplyTo(SteerButton, armed) == Quiet
    ensures ReplyTo(QueuedTurn(text), true) == ReplyTo(SteerText(text), armed)
    ensures "!" <= text ==> ReplyTo(SteerText(text), armed) == ReplyTo(QueuedTurn(text), false)
    ensures !("!" <= text) ==> ReplyTo(SteerText(text), armed) == ReplyTo(QueuedTurn("!" + text), false)
    ensures var i := Parse(text);
            ReplyTo(QueuedTurn(text), false) == if i.kind.Plain? || i.kind.Steer? then Handled(i.text) else Quiet
  {
    hide Parse;
  }

  /** A steer always becomes a turn, whatever its text looks like, and its text is the message
      without the marker, trimmed and cut to the message bound. */
  lemma SteersAreTurns(text: string)
    ensures TurnOf(Raw(text, true)).Handled?
    ensures !("!" <= text) ==> TurnOf(Raw(text, true)) == Handled(Fit(Trim(TrimEnd(text)), MAX_MESSAGE_BYTES))
  {
    var raw := Raw(text, true);
    assert raw[0] == '!' && TrimStart(raw) == raw;
    TrimEndKeepsHead(raw);
    if !("!" <= text) {
      assert raw[1..] == text;
      TrimEndTail(raw);
    }
  }

  lemma {:induction false} TrimEndTail(s: string)
    requires s != [] && !IsWhitespace(s[0])
    ensures TrimEnd(s) != [] && TrimEnd(s)[1..] == TrimEnd(s[1..])
  {
    if IsWhitespace(s[|s| - 1]) {
      assert s[..|s| - 1][1..] == s[1..][..|s[1..]| - 1];
      TrimEndTail(s[..|s| - 1]);
    }
  }
}
