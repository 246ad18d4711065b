/** The messages that flow through the event loop and the commands that an
    update hands back to it. The terminal framework delivers any value as a
    message and switches on its runtime type; here every kind of message is
    one variant of a single sum type, and every command one variant of
    another. */
module Messages {

  /** Key events, abstracted from the terminal's key codes and the key-binding
      tables. A rune event always carries at least one rune. */
  datatype Key =
    | Runes(first: char, more: string)
    | Backspace
    | Enter
    | Esc        // root: toggle command mode
    | ShiftTab   // root: switch region
    | CtrlC      // root: quit
    | ShiftF     // viewport: next tab
    | ShiftB     // viewport: previous tab
    | OtherKey(name: string)

  /** The request status shown by the status bar: three named states or an
      HTTP status code. */
  datatype Status = Idle | Processing | Error | Code(value: int)

  /** A request target: method and URL. */
  datatype Address = Address(httpMethod: string, url: string)

  /** The outcome of parsing the address bar. */
  datatype AddressResult = Parsed(address: Address) | EmptyAddress

  datatype Trigger = NewRequest | OtherTrigger(name: string)

  datatype Msg =
    | KeyMsg(key: Key)
    | WindowSize(width: int, height: int)
    | FreeText(text: string)                         // a submitted command line
    | TriggerMsg(trigger: Trigger)
    | Response(body: string)                         // a completed request
    | HeaderItem(headerKey: string, headerValue: string)
    | RequestHeaders(headers: map<string, string>)   // the viewport's header snapshot
    | StatusUpdate(status: Status)
    | CommandInput(entry: string)                    // mirrored command buffer
    | ShortMessage(message: string)
    | ModeMsg(mode: string)
    | SpinnerTickMsg
    | OtherMsg(name: string)

  /** Components whose internals are not part of this model. */
  datatype Child =
    | TextInput | Spinner
    | ResponsePane | RequestBodyPane | HeadersPane | ResponseHeadersPane

  /** Commands: deferred work that posts a message back to the loop. */
  datatype Cmd =
    | NoCmd
    | Quit
    | Batch(cmds: seq<Cmd>)
    | EmitFreeText(text: string)                 // posts FreeText(text)
    | SubmitNewRequest                           // posts TriggerMsg(NewRequest)
    | Fetch(address: AddressResult)              // the network request
    | Tick                                       // posts SpinnerTickMsg
    | EmitHeaders(headers: map<string, string>)  // posts RequestHeaders(headers)
    | ChildCmd(child: Child, msg: Msg)           // whatever the child returned for msg

  /** The state of a component whose internals are not modelled, represented
      by the messages its update has been given so far: a deterministic
      update makes the state a function of that history. */
  datatype Pane = Pane(received: seq<Msg>)

  function Deliver(p: Pane, m: Msg): Pane {
    Pane(p.received + [m])
  }

  function Sum(ns: seq<nat>): nat {
    if ns == [] then 0 else ns[0] + Sum(ns[1..])
  }

  /** The number of network requests a command schedules. */
  function Fetches(c: Cmd): nat {
    match c
    case Fetch(_) => 1
    case Batch(cs) => Sum(seq(|cs|, i requires 0 <= i < |cs| => Fetches(cs[i])))
    case _ => 0
  }

  /** A pair of commands schedules what its two halves schedule. */
  lemma {:induction false} FetchesPair(a: Cmd, b: Cmd)
    ensures Fetches(Batch([a, b])) == Fetches(a) + Fetches(b)
  {
    var cs := [a, b];
    var ns := seq(|cs|, i requires 0 <= i < |cs| => Fetches(cs[i]));
    assert Fetches(Batch(cs)) == Sum(ns);
    assert ns[0] == Fetches(a) && ns[1..] == [Fetches(b)];
    assert Sum([Fetches(b)]) == Fetches(b) + Sum([]);
  }

  /** A batch of commands none of which is a request or a batch schedules
      no request. */
  lemma {:induction false} FetchesNone(cs: seq<Cmd>)
    requires forall i :: 0 <= i < |cs| ==> !cs[i].Fetch? && !cs[i].Batch?
    ensures Fetches(Batch(cs)) == 0
  {
    var ns := seq(|cs|, i requires 0 <= i < |cs| => Fetches(cs[i]));
    SumZero(ns);
  }

  lemma {:induction false} SumZero(ns: seq<nat>)
    requires forall i :: 0 <= i < |ns| ==> ns[i] == 0
    ensures Sum(ns) == 0
  {
    if ns != [] {
      SumZero(ns[1..]);
    }
  }
}
