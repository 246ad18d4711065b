/** The root model: it owns the address bar, the viewport and the status
    bar, keeps the focused region and the command-mode buffer, and decides
    where each message goes. */
module App {
  import opened Messages
  import AddressBar
  import Viewport
  import StatusBar
  import Command

  /** The focusable regions: 0 is the address bar, 1 the viewport. */
  const RegionCount := 2

  /** The region-switch key moves the focus to the other region. */
  function NextRegion(r: int): (n: int)
    requires 0 <= r < RegionCount
    ensures 0 <= n < RegionCount && n != r
  {
    (r + 1) % RegionCount
  }

  /** Where the root update sends a message. */
  datatype Route =
    | CommandKey        // any key while in command mode
    | SwitchRegion
    | EnterCommandMode
    | QuitApp
    | Resize
    | ToViewport        // a submitted command line
    | StartRequest
    | FinishRequest
    | ToRegion          // the focused region and the status bar

  function RouteOf(commandMode: bool, msg: Msg): (r: Route)
    ensures r == CommandKey <==> commandMode && msg.KeyMsg?
    ensures r == SwitchRegion <==> !commandMode && msg == KeyMsg(ShiftTab)
    ensures r == EnterCommandMode <==> !commandMode && msg == KeyMsg(Esc)
    ensures r == QuitApp <==> !commandMode && msg == KeyMsg(CtrlC)
    ensures r == Resize <==> msg.WindowSize?
    ensures r == ToViewport <==> msg.FreeText?
    ensures r == StartRequest <==> msg == TriggerMsg(NewRequest)
    ensures r == FinishRequest <==> msg.Response?
  {
    match msg
    case KeyMsg(k) =>
      if commandMode then CommandKey
      else if k == ShiftTab then SwitchRegion
      else if k == Esc then EnterCommandMode
      else if k == CtrlC then QuitApp
      else ToRegion
    case WindowSize(_, _) => Resize
    case FreeText(_) => ToViewport
    case TriggerMsg(t) => if t == NewRequest then StartRequest else ToRegion
    case Response(_) => FinishRequest
    case _ => ToRegion
  }

  /** What the status bar is shown after a key in command mode: the empty
      entry when Esc leaves the mode, else the buffer behind a prompt. Enter
      sends nothing. */
  function CommandEcho(k: Key, command: string): string {
    if k == Esc then [] else "> " + command
  }

  class Model {
    const addressBar: AddressBar.Model
    const viewport: Viewport.Model
    const statusBar: StatusBar.Model
    var activeRegion: int
    var commandMode: bool
    var command: string

    function Mode(): Command.ModeState
      reads this
    {
      Command.ModeState(commandMode, command)
    }

    ghost predicate Valid()
      reads this, viewport, statusBar
    {
      0 <= activeRegion < RegionCount && Command.Consistent(Mode()) &&
      viewport.Valid() && statusBar.Valid()
    }

    /** `edit` is the text input's reaction to a message, seen through the
        text it holds. */
    constructor (edit: (string, Msg) -> string)
      ensures Valid() && activeRegion == 0 && !commandMode && command == []
      ensures fresh(addressBar) && fresh(viewport) && fresh(statusBar)
      ensures addressBar.edit == edit && addressBar.value == [] && addressBar.received == []
      ensures viewport.received == [] && statusBar.received == []
      // the viewport starts on the first tab, disabled, with no headers
      ensures viewport.Snapshot() == Viewport.State(0, false, map[], [Pane([]), Pane([]), Pane([]), Pane([])])
      // the status bar starts idle with its spinner stopped
      ensures statusBar.Snapshot() == StatusBar.Fields(Pane([]), false, 0, Idle, [], [], [])
    {
      addressBar := new AddressBar.Model(edit);
      viewport := new Viewport.Model();
      statusBar := new StatusBar.Model();
      activeRegion := 0;
      commandMode := false;
      command := [];
    }

    /** What a message on the given route does: which children change and
        how, and the command the root returns. A child the route does not
        reach is left exactly as it was. */
    twostate predicate Routed(route: Route, msg: Msg, cmd: Cmd)
      reads this, addressBar, viewport, statusBar
    {
      match route
        case CommandKey =>
          msg.KeyMsg? && unchanged(addressBar, viewport) &&
          if msg.key == Enter then cmd == EmitFreeText(old(command)) && unchanged(statusBar)
          else
            cmd == NoCmd &&
            statusBar.Snapshot() == old(statusBar.Snapshot()).(commandEntry := CommandEcho(msg.key, command)) &&
            statusBar.received == old(statusBar.received) + [CommandInput(CommandEcho(msg.key, command))]
        case SwitchRegion => cmd == NoCmd && unchanged(addressBar, viewport, statusBar)
        case EnterCommandMode =>
          cmd == NoCmd && unchanged(addressBar, viewport) &&
          statusBar.Snapshot() == old(statusBar.Snapshot()).(commandEntry := ">") &&
          statusBar.received == old(statusBar.received) + [CommandInput(">")]
        case QuitApp => unchanged(addressBar, viewport, statusBar)
        case Resize =>
          msg.WindowSize? && cmd == NoCmd && unchanged(addressBar, viewport) &&
          statusBar.Snapshot() == StatusBar.Next(old(statusBar.Snapshot()), msg) &&
          statusBar.received == old(statusBar.received) + [msg]
        case ToViewport =>
          msg.FreeText? && cmd == NoCmd && unchanged(addressBar, statusBar) &&
          viewport.received == old(viewport.received) + [msg] &&
          0 <= old(viewport.activeTab) < Viewport.TabCount &&
          viewport.Snapshot() == Viewport.Next(old(viewport.Snapshot()), msg)
        case StartRequest =>
          unchanged(addressBar) &&
          // only the enabled flag of the viewport moves
          viewport.Snapshot() == old(viewport.Snapshot()).(enabled := false) &&
          viewport.received == old(viewport.received) &&
          statusBar.Snapshot() == StatusBar.Next(old(statusBar.Snapshot()), StatusUpdate(Processing)) &&
          statusBar.received == old(statusBar.received) + [StatusUpdate(Processing)] &&
          cmd.Batch? && |cmd.cmds| == 2 &&
          cmd.cmds[0] == (if old(statusBar.status) == Processing then ChildCmd(Spinner, StatusUpdate(Processing)) else Tick) &&
          cmd.cmds[1] == Fetch(AddressBar.ParseAddress(addressBar.value))
        case FinishRequest =>
          cmd == NoCmd && unchanged(addressBar) &&
          viewport.Snapshot() == old(viewport.Snapshot()).(enabled := true) &&
          viewport.received == old(viewport.received) &&
          statusBar.Snapshot() == StatusBar.Next(old(statusBar.Snapshot()), StatusUpdate(Idle)) &&
          statusBar.received == old(statusBar.received) + [StatusUpdate(Idle)]
        case ToRegion =>
          statusBar.Snapshot() == StatusBar.Next(old(statusBar.Snapshot()), msg) &&
          statusBar.received == old(statusBar.received) + [msg] &&
          cmd.Batch? && |cmd.cmds| == 2 &&
          cmd.cmds[1] == StatusBar.Reaction(old(statusBar.status), old(statusBar.spinning), msg) &&
          if old(activeRegion) == 0 then
            unchanged(viewport) && addressBar.received == old(addressBar.received) + [msg] &&
            addressBar.value == (if msg == KeyMsg(Enter) then old(addressBar.value) else addressBar.edit(old(addressBar.value), msg)) &&
            cmd.cmds[0] == (if msg == KeyMsg(Enter) then SubmitNewRequest else ChildCmd(TextInput, msg))
          else
            unchanged(addressBar) && viewport.received == old(viewport.received) + [msg] &&
            0 <= old(viewport.activeTab) < Viewport.TabCount &&
            viewport.Snapshot() == Viewport.Next(old(viewport.Snapshot()), msg) &&
            cmd.cmds[0] == Viewport.Reply(msg, viewport.headers)
    }

    /** One message through the root. In command mode every key edits the
        buffer (and is mirrored to the status bar) and goes nowhere else.
        Otherwise the region key, Esc and quit are handled here, a resize
        reaches the status bar, a command line the viewport, a new-request
        trigger marks the status as processing, disables the viewport and
        schedules the request, a response re-enables the viewport and marks
        the status idle, and everything else goes to the focused region and
        to the status bar. */
    method Update(msg: Msg) returns (cmd: Cmd)
      requires Valid()
      modifies this, addressBar, viewport, statusBar
      ensures Valid()
      // the mode and the buffer follow the command-mode state machine
      ensures msg.KeyMsg? ==> Mode() == Command.ModeStep(old(Mode()), msg.key)
      ensures !msg.KeyMsg? ==> Mode() == old(Mode())
      ensures activeRegion ==
        if RouteOf(old(commandMode), msg) == SwitchRegion then NextRegion(old(activeRegion))
        else old(activeRegion)
      // what each route returns
      ensures cmd == Quit <==> RouteOf(old(commandMode), msg) == QuitApp
      ensures Fetches(cmd) == if RouteOf(old(commandMode), msg) == StartRequest then 1 else 0
      ensures Routed(RouteOf(old(commandMode), msg), msg, cmd)
    {
      ghost var route := RouteOf(commandMode, msg);
      match msg {
        case KeyMsg(k) =>
          if commandMode {
            assert route == CommandKey;
            cmd := EditCommand(k);
            return;
          }
          if k == ShiftTab {
            assert route == SwitchRegion;
            activeRegion := (activeRegion + 1) % 2;
            return NoCmd;
          } else if k == Esc {
            assert route == EnterCommandMode;
            EnterCommand();
            return NoCmd;
          } else if k == CtrlC {
            assert route == QuitApp;
            return Quit;
          }
        case WindowSize(_, _) =>
          assert route == Resize;
          ResizeStatusBar(msg);
          return NoCmd;
        case FreeText(_) =>
          assert route == ToViewport;
          RunCommandLine(msg);
          return NoCmd;
        case TriggerMsg(t) =>
          if t == NewRequest {
            assert route == StartRequest;
            cmd := BeginRequest();
            return;
          }
        case Response(_) =>
          assert route == FinishRequest;
          EndRequest(msg);
          return NoCmd;
        case _ =>
      }
      assert route == ToRegion;
      cmd := Forward(msg);
    }

    /** A key in command mode edits the buffer and mirrors it to the status
        bar; Enter submits the buffer as a command line instead. */
    method EditCommand(k: Key) returns (cmd: Cmd)
      requires Valid() && commandMode
      modifies this`commandMode, this`command, statusBar
      ensures Valid()
      ensures Mode() == Command.ModeStep(old(Mode()), k)
      ensures Routed(CommandKey, KeyMsg(k), cmd)
      ensures k == Enter ==> cmd == EmitFreeText(old(command)) && unchanged(statusBar)
      ensures k != Enter ==>
        cmd == NoCmd &&
        statusBar.Snapshot() == old(statusBar.Snapshot()).(commandEntry := CommandEcho(k, command)) &&
        statusBar.received == old(statusBar.received) + [CommandInput(CommandEcho(k, command))]
    {
      if k == Esc {
        commandMode := false;
        command := [];
        var _ := statusBar.Update(CommandInput([]));
        return NoCmd;
      }
      match k {
        case Runes(c, _) =>
          command := command + [c];
        case Backspace =>
          if |command| > 0 {
            command := command[..|command| - 1];
          }
        case Enter =>
          cmd := EmitFreeText(command);
          command := [];
          commandMode := false;
          return;
        case _ =>
      }
      var prefix := if commandMode then "> " else "";
      var _ := statusBar.Update(CommandInput(prefix + command));
      return NoCmd;
    }

    /** Esc outside command mode opens it and shows the prompt. */
    method EnterCommand()
      requires Valid() && !commandMode
      modifies this`commandMode, statusBar
      ensures Valid() && commandMode && command == old(command)
      ensures statusBar.Snapshot() == old(statusBar.Snapshot()).(commandEntry := ">")
      ensures statusBar.received == old(statusBar.received) + [CommandInput(">")]
      ensures Routed(EnterCommandMode, KeyMsg(Esc), NoCmd)
    {
      commandMode := true;
      var _ := statusBar.Update(CommandInput(">"));
    }

    /** A resize reaches the status bar, which takes the new width. The
        viewport's height arithmetic is not part of this model. */
    method ResizeStatusBar(msg: Msg)
      requires Valid() && msg.WindowSize?
      modifies statusBar
      ensures Valid()
      ensures statusBar.Snapshot() == StatusBar.Next(old(statusBar.Snapshot()), msg)
      ensures statusBar.width == msg.width && statusBar.received == old(statusBar.received) + [msg]
      ensures Routed(Resize, msg, NoCmd)
    {
      var _ := statusBar.Update(msg);
    }

    /** A submitted command line goes to the viewport only. */
    method RunCommandLine(msg: Msg)
      requires Valid() && msg.FreeText?
      modifies viewport
      ensures Valid()
      ensures viewport.received == old(viewport.received) + [msg]
      ensures viewport.Snapshot() == Viewport.Next(old(viewport.Snapshot()), msg)
      ensures viewport.enabled == old(viewport.enabled) && viewport.headers == old(viewport.headers)
      ensures viewport.Panes() == old(viewport.Panes())
      ensures viewport.activeTab == Viewport.ShortcutTab(msg.text, old(viewport.activeTab))
      ensures Routed(ToViewport, msg, NoCmd)
    {
      var _ := viewport.Update(msg);
    }

    /** A response re-enables the viewport and marks the status idle. The
        body is not stored. */
    method EndRequest(msg: Msg)
      requires Valid() && msg.Response?
      modifies statusBar, viewport`enabled
      ensures Valid()
      ensures viewport.Snapshot() == old(viewport.Snapshot()).(enabled := true)
      ensures statusBar.Snapshot() == StatusBar.Next(old(statusBar.Snapshot()), StatusUpdate(Idle))
      ensures viewport.enabled && statusBar.status == Idle && !statusBar.spinning
      ensures statusBar.received == old(statusBar.received) + [StatusUpdate(Idle)]
      ensures Routed(FinishRequest, msg, NoCmd)
    {
      viewport.SetEnabled(true);
      var _ := statusBar.Update(StatusUpdate(Idle));
    }

    /** A new-request trigger: the status becomes processing, the viewport
        is disabled, and exactly one request for the parsed address is
        scheduled beside the status bar's command. */
    method BeginRequest() returns (cmd: Cmd)
      requires Valid()
      modifies statusBar, viewport`enabled
      ensures Valid()
      ensures viewport.Snapshot() == old(viewport.Snapshot()).(enabled := false)
      ensures statusBar.Snapshot() == StatusBar.Next(old(statusBar.Snapshot()), StatusUpdate(Processing))
      ensures statusBar.status == Processing && !viewport.enabled
      ensures statusBar.received == old(statusBar.received) + [StatusUpdate(Processing)]
      ensures cmd.Batch? && |cmd.cmds| == 2 && cmd.cmds[1] == Fetch(AddressBar.ParseAddress(addressBar.value))
      // the spinner's first tick, or the spinner's own update when it already runs
      ensures cmd.cmds[0] == if old(statusBar.status) == Processing then ChildCmd(Spinner, StatusUpdate(Processing)) else Tick
      ensures Fetches(cmd) == 1
      ensures Routed(StartRequest, TriggerMsg(NewRequest), cmd)
    {
      var statusCmd := statusBar.Update(StatusUpdate(Processing));
      viewport.SetEnabled(false);
      cmd := Batch([statusCmd, Fetch(addressBar.GetAddress())]);
      FetchesPair(statusCmd, Fetch(addressBar.GetAddress()));
    }

    /** The fall-through: the focused region and then the status bar get the
        message, and their commands are batched. */
    method Forward(msg: Msg) returns (cmd: Cmd)
      requires Valid()
      modifies addressBar, viewport, statusBar
      ensures Valid()
      ensures Fetches(cmd) == 0
      ensures Routed(ToRegion, msg, cmd)
    {
      if activeRegion == 0 {
        cmd := ForwardToAddressBar(msg);
      } else {
        cmd := ForwardToViewport(msg);
      }
    }

    /** The fall-through with the address bar focused: Enter submits, any
        other message edits the address. */
    method ForwardToAddressBar(msg: Msg) returns (cmd: Cmd)
      requires Valid() && activeRegion == 0
      modifies addressBar, statusBar
      ensures Valid()
      ensures Fetches(cmd) == 0
      ensures Routed(ToRegion, msg, cmd)
    {
      var regionCmd := addressBar.Update(msg);
      var statusCmd := statusBar.Update(msg);
      cmd := Batch([regionCmd, statusCmd]);
      FetchesPair(regionCmd, statusCmd);
    }

    /** The fall-through with the viewport focused: the viewport's update
        and then the status bar's. */
    method ForwardToViewport(msg: Msg) returns (cmd: Cmd)
      requires Valid() && activeRegion == 1
      modifies viewport, statusBar
      ensures Valid()
      ensures Fetches(cmd) == 0
      ensures Routed(ToRegion, msg, cmd)
    {
      var regionCmd := viewport.Update(msg);
      if regionCmd.Batch? {
        FetchesNone(regionCmd.cmds);
      }
      var statusCmd := statusBar.Update(msg);
      cmd := Batch([regionCmd, statusCmd]);
      FetchesPair(regionCmd, statusCmd);
    }
  }
}
