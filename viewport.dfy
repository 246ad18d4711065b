/** The viewport: four tabs over the request headers, the request body, the
    response and the response headers, switched by keys or by command-line
    shortcuts, plus the header map that header items build. */
module Viewport {
  import opened Messages

  const TabCount := 4

  const TabTitles: seq<string> :=
    ["Headers (:q)", "Request Body (:w)", "Response (:e)", "Response Headers (:r)"]

  /** The command-line shortcut that selects each tab, in tab order. */
  const Shortcuts: seq<string> := [":q", ":w", ":e", ":r"]

  /** The next-tab key: one to the right, wrapping from the last tab to the
      first. */
  function NextTab(active: nat): (r: nat)
    requires active < TabCount
    ensures r < TabCount
    ensures active < TabCount - 1 ==> r == active + 1
    ensures active == TabCount - 1 ==> r == 0
  {
    (active + 1) % TabCount
  }

  /** The previous-tab key as the source writes it: one to the left, except
      that the first tab goes to tab 2 rather than to the last tab. */
  function PrevTab(active: nat): (r: nat)
    requires active < TabCount
    ensures r < TabCount - 1
    ensures 0 < active ==> r == active - 1
    ensures active == 0 ==> r == 2
  {
    if active == 0 then 2 else active - 1
  }

  /** The tab a submitted command line selects: the tab whose shortcut it is,
      or the current tab when it is no shortcut. */
  function ShortcutTab(text: string, current: int): (r: int)
    ensures text in Shortcuts ==> 0 <= r < TabCount && Shortcuts[r] == text
    ensures text !in Shortcuts ==> r == current
  {
    if text == ":q" then 0
    else if text == ":w" then 1
    else if text == ":e" then 2
    else if text == ":r" then 3
    else current
  }

  /** The next-tab key pressed k times moves k tabs to the right, modulo the
      number of tabs. */
  function NextTabs(active: nat, k: nat): (r: nat)
    requires active < TabCount
    ensures r < TabCount
  {
    if k == 0 then active else NextTab(NextTabs(active, k - 1))
  }

  lemma {:induction false} NextTabsModulo(active: nat, k: nat)
    requires active < TabCount
    ensures NextTabs(active, k) == (active + k) % TabCount
  {
    if k > 0 {
      NextTabsModulo(active, k - 1);
    }
  }

  /** Going right through all tabs comes back to the start, and every tab is
      visited on the way. */
  lemma {:induction false} NextTabsCycle(active: nat, target: nat)
    requires active < TabCount && target < TabCount
    ensures NextTabs(active, TabCount) == active
    ensures NextTabs(active, (target - active) % TabCount) == target
  {
    NextTabsModulo(active, TabCount);
    NextTabsModulo(active, (target - active) % TabCount);
  }

  /** The previous-tab key undoes the next-tab key except where next-tab
      wraps: from the last tab, next goes to 0 and previous then to 2. */
  lemma {:induction false} PrevAfterNext(active: nat)
    requires active < TabCount
    ensures PrevTab(NextTab(active)) == active <==> active != TabCount - 1
  {
  }

  /** The previous-tab key pressed k times. */
  function PrevTabs(active: nat, k: nat): (r: nat)
    requires active < TabCount
    ensures r < TabCount
  {
    if k == 0 then active else PrevTab(PrevTabs(active, k - 1))
  }

  /** As written, going left from any tab never reaches the last tab
      ("Response Headers"): every press after the first lands in 0..2. */
  lemma {:induction false} PrevTabsAvoidLast(active: nat, k: nat)
    requires active < TabCount && 0 < k
    ensures PrevTabs(active, k) != TabCount - 1
  {
  }

  /** Each tab's title names the shortcut that selects it. */
  lemma {:induction false} TitlesShowShortcuts(i: nat)
    requires i < TabCount
    ensures ShortcutTab(Shortcuts[i], 0) == i
    ensures TabTitles[i][|TabTitles[i]| - 4..] == "(" + Shortcuts[i] + ")"
  {
  }

  /** Delivers m to every pane. */
  function DeliverAll(panes: seq<Pane>, m: Msg): seq<Pane> {
    seq(|panes|, i requires 0 <= i < |panes| => Deliver(panes[i], m))
  }

  /** The four panes get m in this order, and the batch of what they
      return is the command. */
  function FanOut(m: Msg): Cmd {
    Batch([ChildCmd(ResponsePane, m), ChildCmd(RequestBodyPane, m),
           ChildCmd(HeadersPane, m), ChildCmd(ResponseHeadersPane, m)])
  }

  /** Everything the viewport's update can change, except its log. */
  datatype State = State(activeTab: int, enabled: bool, headers: map<string, string>, panes: seq<Pane>)

  /** The viewport's state after it handles msg: the tab keys move the
      active tab (the previous-tab key then also reaches the panes), a
      command line may select a tab, a resize reaches the panes three rows
      shorter, a header item sets one header, and anything else reaches the
      panes. The enabled flag is never touched. */
  function Next(s: State, msg: Msg): State
    requires 0 <= s.activeTab < TabCount
  {
    match msg
    case KeyMsg(k) =>
      if k == ShiftF then s.(activeTab := NextTab(s.activeTab))
      else if k == ShiftB then s.(activeTab := PrevTab(s.activeTab), panes := DeliverAll(s.panes, msg))
      else s.(panes := DeliverAll(s.panes, msg))
    case FreeText(text) => s.(activeTab := ShortcutTab(text, s.activeTab))
    case WindowSize(w, h) => s.(panes := DeliverAll(s.panes, WindowSize(w, h - 3)))
    case HeaderItem(k, v) => s.(headers := s.headers[k := v])
    case _ => s.(panes := DeliverAll(s.panes, msg))
  }

  /** The command the viewport answers msg with, given its header map after
      the update: nothing for the next-tab key, a command line or a resize,
      the whole map for a header item, and the panes' batch otherwise. */
  function Reply(msg: Msg, headers: map<string, string>): Cmd {
    if msg == KeyMsg(ShiftF) || msg.FreeText? || msg.WindowSize? then NoCmd
    else if msg.HeaderItem? then EmitHeaders(headers)
    else FanOut(msg)
  }

  class Model {
    var activeTab: int
    const tabs: seq<string>
    var enabled: bool
    var headers: map<string, string>
    var responseModel: Pane
    var requestBodyModel: Pane
    var headersModel: Pane
    var responseHeadersModel: Pane
    /** The messages this component's update has been given. */
    ghost var received: seq<Msg>

    ghost predicate Valid()
      reads this
    {
      tabs == TabTitles && 0 <= activeTab < |tabs|
    }

    /** The panes in the order the update visits them. */
    function Panes(): seq<Pane>
      reads this
    {
      [responseModel, requestBodyModel, headersModel, responseHeadersModel]
    }

    /** The state the update works on, without the log. */
    function Snapshot(): State
      reads this
    {
      State(activeTab, enabled, headers, Panes())
    }

    constructor ()
      ensures Valid() && activeTab == 0 && !enabled && headers == map[]
      ensures Panes() == [Pane([]), Pane([]), Pane([]), Pane([])] && received == []
    {
      activeTab := 0;
      tabs := TabTitles;
      enabled := false;
      headers := map[];
      responseModel := Pane([]);
      requestBodyModel := Pane([]);
      headersModel := Pane([]);
      responseHeadersModel := Pane([]);
      received := [];
    }

    method SetEnabled(enabled: bool)
      modifies this`enabled
      ensures this.enabled == enabled
    {
      this.enabled := enabled;
    }

    /** Tab keys move the active tab (the previous-tab key then also goes to
        the panes), a command line may select a tab, a resize reaches every
        pane three rows shorter, a header item updates the header map and
        emits it, and anything else goes to all four panes. The enabled flag
        is neither read nor changed. */
    method Update(msg: Msg) returns (cmd: Cmd)
      requires Valid()
      modifies this
      ensures Valid()
      ensures received == old(received) + [msg]
      ensures enabled == old(enabled)
      ensures Snapshot() == Next(old(Snapshot()), msg)
      ensures cmd == Reply(msg, headers)
      ensures msg == KeyMsg(ShiftF) ==>
        activeTab == NextTab(old(activeTab)) && cmd == NoCmd && Panes() == old(Panes())
      ensures msg.FreeText? ==>
        activeTab == ShortcutTab(msg.text, old(activeTab)) && cmd == NoCmd && Panes() == old(Panes())
      ensures msg.WindowSize? ==>
        activeTab == old(activeTab) && cmd == NoCmd &&
        Panes() == DeliverAll(old(Panes()), WindowSize(msg.width, msg.height - 3))
      ensures msg.HeaderItem? ==>
        headers == old(headers)[msg.headerKey := msg.headerValue] &&
        cmd == EmitHeaders(headers) && activeTab == old(activeTab) && Panes() == old(Panes())
      ensures !msg.HeaderItem? ==> headers == old(headers)
      ensures msg != KeyMsg(ShiftF) && !msg.FreeText? && !msg.WindowSize? && !msg.HeaderItem? ==>
        activeTab == (if msg == KeyMsg(ShiftB) then PrevTab(old(activeTab)) else old(activeTab)) &&
        cmd == FanOut(msg) && Panes() == DeliverAll(old(Panes()), msg)
    {
      received := received + [msg];
      match msg {
        case KeyMsg(k) =>
          if k == ShiftF {
            activeTab := (activeTab + 1) % |tabs|;
            return NoCmd;
          } else if k == ShiftB {
            var newTab: int;
            if activeTab == 0 {
              newTab := 2;
            } else {
              newTab := activeTab - 1;
            }
            activeTab := newTab;
          }
        case FreeText(text) =>
          if text == ":q" {
            activeTab := 0;
          } else if text == ":w" {
            activeTab := 1;
          } else if text == ":e" {
            activeTab := 2;
          } else if text == ":r" {
            activeTab := 3;
          }
          return NoCmd;
        case WindowSize(w, h) =>
          DeliverToPanes(WindowSize(w, h - 3));
          return NoCmd;
        case HeaderItem(k, v) =>
          headers := headers[k := v];
          return EmitHeaders(headers);
        case _ =>
      }
      DeliverToPanes(msg);
      cmd := FanOut(msg);
    }

    /** Each of the four panes takes m, in update order. */
    method DeliverToPanes(m: Msg)
      modifies this`responseModel, this`requestBodyModel, this`headersModel, this`responseHeadersModel
      ensures Panes() == DeliverAll(old(Panes()), m)
    {
      responseModel := Deliver(responseModel, m);
      requestBodyModel := Deliver(requestBodyModel, m);
      headersModel := Deliver(headersModel, m);
      responseHeadersModel := Deliver(responseHeadersModel, m);
    }
  }
}
