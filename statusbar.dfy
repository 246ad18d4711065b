/** The status bar: the request status with a spinner while a request is
    being processed, the mirrored command line, a short message and the mode
    name. */
module StatusBar {
  import opened Messages

  /** The colour class View gives a status. */
  datatype Severity = Busy | Neutral | Good | Bad

  /** The classification in View: processing shows the spinner, idle is
      neutral, an error is bad, and a numeric code is good below 400 and bad
      from 400 on (the source tests below 300 and below 400 separately and
      styles both the same way). */
  function SeverityOf(s: Status): (v: Severity)
    ensures v == Busy <==> s == Processing
    ensures v == Neutral <==> s == Idle
    ensures v == Good <==> s.Code? && s.value < 400
    ensures v == Bad <==> s == Error || (s.Code? && 400 <= s.value)
  {
    match s
    case Processing => Busy
    case Idle => Neutral
    case Error => Bad
    case Code(value) =>
      if value < 300 then Good
      else if value < 400 then Good
      else Bad
  }

  /** Messages that set one display field and return at once. */
  predicate IsSetter(m: Msg) {
    m.CommandInput? || m.WindowSize? || m.ShortMessage? || m.ModeMsg?
  }

  /** The command the status bar answers a message with, given its status
      and whether the spinner runs: nothing for a display setter, and
      otherwise the spinner logic on the status the message leaves. */
  function Reaction(status: Status, spinning: bool, msg: Msg): Cmd {
    if IsSetter(msg) then NoCmd
    else
      var now := if msg.StatusUpdate? then msg.status else status;
      if now != Processing then NoCmd
      else if !spinning then Tick
      else ChildCmd(Spinner, msg)
  }

  /** The bar's state apart from its message log. */
  datatype Fields = Fields(spinner: Pane, spinning: bool, width: int, status: Status,
                           commandEntry: string, message: string, mode: string)

  /** The bar's state after it handles m: a display setter changes its one
      field; any other message (a status update after setting the status)
      starts the spinner when processing begins, passes the message to a
      running spinner, or stops it once the status is no longer
      processing. */
  function Next(f: Fields, m: Msg): Fields {
    if m.CommandInput? then f.(commandEntry := m.entry)
    else if m.WindowSize? then f.(width := m.width)
    else if m.ShortMessage? then f.(message := m.message)
    else if m.ModeMsg? then f.(mode := m.mode)
    else
      var now := if m.StatusUpdate? then m.status else f.status;
      if now != Processing then f.(status := now, spinning := false)
      else if !f.spinning then f.(status := now, spinning := true)
      else f.(status := now, spinner := Deliver(f.spinner, m))
  }

  class Model {
    var spinner: Pane
    var spinning: bool
    var width: int
    var status: Status
    var commandEntry: string
    var message: string
    var mode: string
    /** The messages this component's update has been given. */
    ghost var received: seq<Msg>

    /** The spinner runs exactly while a request is being processed. */
    ghost predicate Valid()
      reads this
    {
      spinning <==> status == Processing
    }

    function Snapshot(): Fields
      reads this
    {
      Fields(spinner, spinning, width, status, commandEntry, message, mode)
    }

    constructor ()
      ensures Valid()
      ensures spinner == Pane([]) && !spinning && width == 0 && status == Idle
      ensures commandEntry == [] && message == [] && mode == [] && received == []
    {
      spinner := Pane([]);
      spinning := false;
      width := 0;
      status := Idle;
      commandEntry := [];
      message := [];
      mode := [];
      received := [];
    }

    /** The display setters change one field each; every other message
        (a status update after setting the status) runs the spinner logic:
        while processing, the first such message starts the spinner with a
        tick and later ones go to the spinner; otherwise the spinner stops
        and nothing is scheduled. */
    method Update(msg: Msg) returns (cmd: Cmd)
      modifies this
      ensures received == old(received) + [msg]
      ensures cmd == Reaction(old(status), old(spinning), msg)
      ensures Snapshot() == Next(old(Snapshot()), msg)
      ensures commandEntry == (if msg.CommandInput? then msg.entry else old(commandEntry))
      ensures width == (if msg.WindowSize? then msg.width else old(width))
      ensures message == (if msg.ShortMessage? then msg.message else old(message))
      ensures mode == (if msg.ModeMsg? then msg.mode else old(mode))
      ensures IsSetter(msg) ==>
        cmd == NoCmd && status == old(status) && spinning == old(spinning) && spinner == old(spinner)
      ensures !IsSetter(msg) ==>
        status == (if msg.StatusUpdate? then msg.status else old(status)) &&
        spinning == (status == Processing)
      ensures !IsSetter(msg) && status == Processing && !old(spinning) ==>
        cmd == Tick && spinner == old(spinner)
      ensures !IsSetter(msg) && status == Processing && old(spinning) ==>
        cmd == ChildCmd(Spinner, msg) && spinner == Deliver(old(spinner), msg)
      ensures !IsSetter(msg) && status != Processing ==>
        cmd == NoCmd && spinner == old(spinner)
      ensures cmd != NoCmd ==> status == Processing
      ensures old(Valid()) ==> Valid()
      ensures old(Valid()) ==>
        (cmd == Tick <==> msg.StatusUpdate? && msg.status == Processing && old(status) != Processing)
    {
      received := received + [msg];
      match msg {
        case CommandInput(entry) =>
          commandEntry := entry;
          return NoCmd;
        case StatusUpdate(s) =>
          status := s;
        case WindowSize(w, _) =>
          width := w;
          return NoCmd;
        case ShortMessage(m) =>
          message := m;
          return NoCmd;
        case ModeMsg(m) =>
          mode := m;
          return NoCmd;
        case _ =>
      }
      if status == Processing {
        if !spinning {
          spinning := true;
          return Tick;
        }
        spinner := Deliver(spinner, msg);
        return ChildCmd(Spinner, msg);
      } else {
        spinning := false;
      }
      return NoCmd;
    }
  }
}
