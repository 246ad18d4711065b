# gurl terminal HTTP client — a Dafny model of its update logic

gurl is a terminal HTTP client built on a message-loop UI framework. Every
event reaches the root model's `Update` as a message: a key, a window
resize, a submitted command line, a request trigger or a completed
response. `Update` changes the model and hands back a command, which is
deferred work that later posts another message.

The screen has three parts:

- An **address bar**: a one-line text input holding `METHOD URL`.
- A **viewport** with four tabs: request headers, request body, response
  and response headers.
- A **status bar**: the request status with a spinner, the mirrored command
  line, a short message and the mode.

The root keeps three things: which of the two regions has the focus, a
command mode opened with Esc, and the command buffer typed in that mode.

This project models that update logic in Dafny and proves what it does.

- `messages.dfy` (`Messages`): messages, keys, statuses, addresses and
  commands as datatypes. A child component whose internals are not modelled
  is a `Pane`, the history of messages it has been given. `Fetches` counts
  the network requests a command schedules.
- `addressbar.dfy` (`AddressBar`): address parsing as pure functions (trim
  spaces, split on single spaces, upper-case the method) with lemmas about
  them. The component itself is a class whose `Update` either submits or
  passes the message to the text input. The text input's reaction is a
  collaborator function `edit`.
- `statusbar.dfy` (`StatusBar`): the status classification of the view and
  a class whose `Update` runs the field setters and the spinner state
  machine. Its invariant is that the spinner runs exactly while the status is
  processing.
- `viewport.dfy` (`Viewport`): tab arithmetic and shortcuts as functions
  with lemmas, and a class whose `Update` moves the active tab, fans
  messages and resizes out to the four panes, and keeps the header map.
- `command.dfy` (`Command`): the command-mode state machine as a pure
  function on (mode, buffer), with lemmas over key sequences. It also models
  the UTF-8 byte buffer the source actually uses (see Findings).
- `app.dfy` (`App`): the root class. It holds the three components, the
  focused region and the command-mode state. Its `Update` is proved against
  `RouteOf` (where each message goes), `Command.ModeStep` (what a key does to
  the buffer) and `Fetches` (exactly one request per new-request trigger).

Where the code and its evident design differ, the model follows the code,
with one exception: command-mode backspace, which the root models as
dropping a character rather than a byte (see Findings and "## Left out").
The places where the model keeps the code as written are:

- The previous-tab key sends the first tab to tab 2, not to the last tab
  (ui/viewport/ui.go:71-72). `Viewport.PrevTabsAvoidLast` proves that going
  left never reaches the response-headers tab.
- The root stores nothing on a response. `SetResponse` only returns its
  argument (ui/viewport/ui.go:52-54).
- A new-request trigger schedules the request whether or not the viewport is
  enabled. No `Update` branch reads `enabled`.
- Entering command mode leaves the buffer as it is (main.go:132-135). The
  invariant `Command.Consistent` shows the buffer is already empty then.

## Model

| member | source | states |
|---|---|---|
| AddressBar.Trim | ui/addressbar/ui.go:52 | the trimmed text is empty exactly when the input is all spaces, and otherwise neither starts nor ends with a space |
| AddressBar.TrimLeftShape | ui/addressbar/ui.go:52 | trimming the left drops only spaces and keeps a suffix of the input |
| AddressBar.TrimRightShape | ui/addressbar/ui.go:52 | trimming the right drops only spaces and keeps a prefix of the input |
| AddressBar.Split | ui/addressbar/ui.go:60 | splitting on a space always gives at least one piece |
| AddressBar.SplitSpaceFree | ui/addressbar/ui.go:60 | no piece of the split contains a space |
| AddressBar.SplitEnds | ui/addressbar/ui.go:60 | a text that does not start (end) with a space has a non-empty first (last) piece |
| AddressBar.JoinSplit | ui/addressbar/ui.go:60 | joining the pieces with single spaces gives back the text that was split |
| AddressBar.SplitJoin | ui/addressbar/ui.go:60 | splitting space-free tokens joined by single spaces gives back the tokens |
| AddressBar.ToUpper | ui/addressbar/ui.go:69 | same length, no lower-case ASCII letter is left, letters move down by 32 and every other character is kept |
| AddressBar.ParseAddress | ui/addressbar/ui.go:51-70 | the address is rejected exactly when the input is only spaces; otherwise the URL is non-empty and space-free and the method is non-empty, space-free and upper-case |
| AddressBar.ParseLine | ui/addressbar/ui.go:58-69 | on trimmed non-empty text, the URL is non-empty and space-free and the method is non-empty, space-free and upper-case |
| AddressBar.ParseLineUrl | ui/addressbar/ui.go:60-63 | the URL is the text after the last space of the trimmed line (a suffix of it, preceded by a space unless it is the whole line), and the whole line when it holds no space |
| AddressBar.ParseLineMethod | ui/addressbar/ui.go:60-69 | without a space the method is GET; with one it is the text before the first space, upper-cased |
| AddressBar.ParseSingleToken | ui/addressbar/ui.go:60-69 | a single token is the URL and the method defaults to GET |
| AddressBar.ParseManyTokens | ui/addressbar/ui.go:60-69 | with two or more tokens the method is the first token upper-cased, the URL is the last token, and middle tokens are dropped |
| AddressBar.SurroundingSpacesIgnored | ui/addressbar/ui.go:52 | spaces around the input do not change the parse |
| AddressBar.PaddedTokenIsGet | ui/addressbar/ui.go:52-69 | a lone token with spaces around it (such as "  /shops  ") parses to GET and that token |
| AddressBar.Model.constructor | ui/addressbar/ui.go:15-25 | the bar starts with empty text and the given text-input behaviour |
| AddressBar.Model.Update | ui/addressbar/ui.go:32-45 | Enter returns the submit-request command and leaves the text alone; every other message goes to the text input, whose command is returned |
| StatusBar.SeverityOf | ui/statusbar/ui.go:75-95 | processing, idle and error get their own classes; a numeric code is good below 400 and bad from 400 on |
| StatusBar.Model.constructor | ui/statusbar/ui.go:25-30 | the bar starts idle with the spinner stopped |
| StatusBar.Model.Update | ui/statusbar/ui.go:32-70 | the command-input, width, message and mode setters change one field, return nothing and leave status and spinner alone; a status update sets the status and falls through; while processing, the first message starts the spinner with a tick and later ones go to the spinner; otherwise the spinner stops with no command; the invariant "spinning exactly while processing" is kept, so a tick is returned exactly when the status turns to processing; the whole new state is `StatusBar.Next` of the old state and the message, and the command returned is `StatusBar.Reaction` of the old status, the old spinner flag and the message |
| Viewport.NextTab | ui/viewport/ui.go:65-67 | one tab to the right, from the last tab to the first, always in range |
| Viewport.NextTabsModulo | ui/viewport/ui.go:65-67 | k presses of next-tab move k tabs modulo 4 |
| Viewport.NextTabsCycle | ui/viewport/ui.go:65-67 | four presses return to the start, and every tab is reachable |
| Viewport.PrevTab | ui/viewport/ui.go:69-77 | one tab to the left from tabs 1 to 3, and from the first tab to tab 2; the result is never the last tab |
| Viewport.PrevAfterNext | ui/viewport/ui.go:65-77 | previous undoes next exactly when next did not wrap |
| Viewport.PrevTabsAvoidLast | ui/viewport/ui.go:69-77 | any number of previous-tab presses never lands on the response-headers tab |
| Viewport.ShortcutTab | ui/viewport/ui.go:79-94 | ":q", ":w", ":e", ":r" select the tab with that shortcut; other text keeps the current tab |
| Viewport.TitlesShowShortcuts | ui/viewport/ui.go:38 | each tab title ends with the shortcut that selects that tab |
| Viewport.Model.constructor | ui/viewport/ui.go:37-50 | four titled tabs, the first active, disabled, no headers |
| Viewport.Model.SetEnabled | ui/viewport/ui.go:56-58 | sets the enabled flag and nothing else |
| Viewport.Model.Update | ui/viewport/ui.go:60-132 | next-tab moves right and returns nothing; previous-tab moves left and then goes to all panes; a command line may select a tab; a resize reaches all four panes with height minus 3; a header item sets one key and emits the whole map; anything else goes to all four panes; the active tab stays in range and enabled is untouched; the whole new state (tab, enabled flag, headers, panes) is `Viewport.Next` of the old state and the message, and the command is `Viewport.Reply` of the message and the new header map |
| Viewport.Model.DeliverToPanes | ui/viewport/ui.go:117-131 | the four panes each receive the message |
| Command.ModeStep | main.go:89-113 | keys in command mode: Esc and Enter close the mode with an empty buffer, a rune appends its first rune, backspace drops the last character or does nothing on an empty buffer, and every other key leaves mode and buffer as they are; outside command mode only Esc opens it; the buffer is empty outside command mode |
| Command.RunKeysConsistent | main.go:49-50 | under any key sequence the buffer stays empty outside command mode |
| Command.TypingAppends | main.go:99-100 | typing a text in command mode appends exactly that text |
| Command.BackspaceUndoesRune | main.go:102-105 | in command mode, backspace after a rune restores the state |
| Command.SessionEnds | main.go:107-112 | Esc, any typed text, then Enter or Esc returns to normal mode with an empty buffer |
| Command.EncodeRune | main.go:100 | a rune encodes to 1 to 4 bytes; one byte exactly for ASCII, and only then is the lead byte below 0x80 |
| Command.AppendRuneBytesEncodes | main.go:100 | appending a rune's bytes to an encoded buffer gives the encoding of the extended text |
| Command.BackspaceBytes | main.go:102-105 | as written: a non-empty buffer loses exactly its last byte |
| Command.BackspaceBytesAgreesOnAscii | main.go:102-105 | the byte backspace equals dropping the last character exactly when that character is ASCII |
| Command.BackspaceLeavesStrayByte | main.go:99-105 | typing "é" then backspace leaves the byte 0xC3, which encodes no text; the character model returns to the empty buffer |
| App.NextRegion | main.go:128-130 | the region key moves the focus to the other of the two regions |
| App.RouteOf | main.go:86-199 | keys in command mode go to the buffer; outside it the region key, Esc and Ctrl+C are handled at the root; resize, command line, new-request trigger and response have their own routes; everything else goes to the focused region |
| App.Model.constructor | main.go:208-215 | fresh components, the address bar focused, not in command mode, empty buffer; the viewport starts on the first tab, disabled, with no headers and empty panes, and the status bar starts idle with its spinner stopped and empty display fields |
| App.Model.Update | main.go:86-199 | mode and buffer follow Command.ModeStep; the focus changes only on the region key; Quit is returned exactly for Ctrl+C outside command mode; exactly one request is scheduled for a new-request trigger and none otherwise; through `Routed`, per route: a child the message does not reach is unchanged; in command mode only the status bar's command entry changes, to the mirrored buffer; a resize changes the status bar as `StatusBar.Next` of the message and leaves the viewport and address bar alone; a command line changes the viewport as `Viewport.Next` and nothing else; the trigger and the response move only the viewport's enabled flag (off, on) and change the status bar as `StatusBar.Next` of a processing (idle) status update; the trigger batches the status bar's command with the request; anything else changes the status bar as `StatusBar.Next` and the focused region as its own update does (the address bar's text as `edit` unless the message is Enter, the viewport as `Viewport.Next`), and the batch holds the region's reply and the status bar's `Reaction` |
| App.Model.EditCommand | main.go:89-125 | Enter emits the buffer as a command line, clears it and leaves the status bar alone; Esc clears it and sets the status bar's command entry to empty; other keys edit it and set the entry to "> " and the buffer; no other status bar field changes |
| App.Model.EnterCommand | main.go:132-135 | Esc opens command mode with the buffer unchanged and sets the status bar's command entry to ">", changing no other field |
| App.Model.ResizeStatusBar | main.go:57-64 | a resize reaches only the status bar, whose new state is `StatusBar.Next` of the resize: the width changes and nothing else |
| App.Model.RunCommandLine | main.go:146-148 | a command line goes only to the viewport, whose new state is `Viewport.Next` of it: the active tab follows the shortcut and the enabled flag, headers and panes stay |
| App.Model.BeginRequest | main.go:150-165 | the status becomes processing and the viewport is disabled; the status bar's new state is `StatusBar.Next` of a processing status update and the viewport changes nothing but its enabled flag; the batch holds the status bar's command (the spinner's first tick, or the spinner's update when it already runs) and one request for the parsed address |
| App.Model.EndRequest | main.go:167-173 | the viewport is enabled and changes nothing else; the status becomes idle with the spinner stopped, the status bar's new state being `StatusBar.Next` of an idle status update |
| App.Model.Forward | main.go:176-198 | everything else goes to the focused region and then the status bar, and the other region is unchanged; it ensures `Routed(ToRegion, ...)` and schedules no request |
| App.Model.ForwardToAddressBar | main.go:176-198 | with the address bar focused: the address bar's text becomes `edit` of it unless the message is Enter, the viewport is unchanged, the status bar's state is `StatusBar.Next` of the message, and the batch holds submit-request on Enter (otherwise the text input's command) and the status bar's `Reaction`, with no request scheduled |
| App.Model.ForwardToViewport | main.go:176-198 | with the viewport focused: the viewport's state is `Viewport.Next` of the message, the address bar is unchanged, the status bar's state is `StatusBar.Next` of the message, and the batch holds `Viewport.Reply` and the status bar's `Reaction`, with no request scheduled |

## Left out

- `main` with its log file and program start (main.go:223-241) is process plumbing.
- `submitRequest` (main.go:66-84) wraps the HTTP call and the body read. It appears only as the `Fetch` command it becomes. That command carries the whole parsed address, but the source requests only `address.Url` with a plain GET (main.go:68), so the parsed method is never sent.
- main.go:162 passes the two results of `GetAddress` to the one-argument `submitRequest`, which does not type-check as written. The model passes the single parse outcome, with `EmptyAddress` for the error.
- The `View` functions and their styles are left out, except the status classification `StatusBar.SeverityOf`. So is the `make` of the styled tab list.
- `Init` and the cursor blink (main.go:53-55, ui/addressbar/ui.go:27-30) are framework timing.
- Command.ModeStep: the command buffer is a sequence of characters and backspace drops the last character. The source keeps a UTF-8 byte string and drops the last byte (main.go:100-104), so for a non-ASCII last character the model follows the evident intent rather than the code. The as-written byte behaviour is `Command.BackspaceBytes` (see Findings).
- App.Model.Update, App.Model.EditCommand: inherit the character buffer of `Command.ModeStep`, so they do not reproduce the stray byte that backspace leaves after a non-ASCII character.
- The root's own types (`appcmd.FreeText`, `appcmd.Trigger`, `appcmd.Response`, `request.Address` and the `status` values, main.go:5-7, 66, 146, 150-172) are taken to be the types the components use from `lib` (`lib.FreeText` at ui/viewport/ui.go:79, `lib.SubmitNewRequest` and `lib.Address` at ui/addressbar/ui.go:37 and 51, `lib.Status` at ui/statusbar/ui.go:12-19). The packages that define them are not part of this model, and nothing shown establishes that the two sets of names are the same types. The model uses one `Msg`, one `Address` and one `Status` datatype for both.
- App.Model.ResizeStatusBar: models only the width handed to the status bar. The viewport height computed from rendered heights (main.go:58-62) and the viewport width are not modelled, because they depend on rendering.
- The text input, the spinner and the four viewport panes are not part of this model. They are message histories (`Pane`), and the text input's value is the collaborator `edit`.
- Key bindings and key matching are abstracted to the `Key` datatype.
- Command asynchrony and the batching of nil commands are not modelled: `Batch` keeps its `NoCmd` entries.
- Viewport.Model.Update: the header map is a plain map. The key canonicalisation of the HTTP header type is not modelled, and neither is the map being shared between copies of the viewport.
- The `GetHeaders` and `GetBody` stubs (ui/viewport/ui.go:165-171) return nothing.
- `SetResponse` (ui/viewport/ui.go:52-54) stores nothing, so the response branch only enables the viewport and sets the status.
- The status bar's message constructors (`statusbar.Width`, `CommandMsg`, `StatusMsg`) and the `lib` status type are not part of this model. They are taken to build the width, command-input and status-update messages that the status bar's `Update` handles. The bar starts idle.
- AddressBar.ToUpper: upper-cases ASCII letters only, while the source's upper-casing also maps other Unicode letters, because Unicode case tables are not modelled.
- The worked parse of "post /shops" is stated for all inputs by `AddressBar.ParseManyTokens` together with `AddressBar.ToUpper`, not as a literal instance.

## Findings

| source | as written | input that shows it | evidently intended | confidence | as-written member | corrected member |
|---|---|---|---|---|---|---|
| main.go:102-105 | backspace in command mode drops the last byte of the UTF-8 command buffer | type "é" (bytes 0xC3 0xA9) in command mode, then backspace: the buffer is the lone byte 0xC3, the encoding of no text | backspace removes the last character, as a rune event added one | high for non-ASCII input; not executed | Command.BackspaceLeavesStrayByte | Command.BackspaceUndoesRune |

The as-written behaviour is `Command.BackspaceBytes` on the byte buffer built
by `Command.AppendRuneBytes`. `Command.BackspaceBytesAgreesOnAscii` shows the
two agree exactly when the last character is ASCII. The root keeps its buffer
as characters and uses the corrected `Command.ModeStep`.
