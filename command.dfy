/** Command mode of the root model: Esc opens a one-line command buffer that
    runes extend, backspace shortens, Enter submits and Esc abandons. The
    buffer here is a sequence of characters; the source keeps it as a UTF-8
    byte string, and the second half of this module models that
    representation to show where the two part ways. */
module Command {
  import opened Messages

  /** The part of the root state that keys in command mode act on. */
  datatype ModeState = ModeState(commandMode: bool, command: string)

  /** Outside command mode the buffer is empty. */
  predicate Consistent(s: ModeState) {
    !s.commandMode ==> s.command == []
  }

  /** What one key does to the mode and the buffer. In command mode: Esc
      and Enter leave the mode with an empty buffer, a rune event appends its
      first rune, backspace drops the last character of a non-empty buffer,
      and other keys change nothing. Outside command mode Esc enters it and
      other keys leave both alone. */
  function ModeStep(s: ModeState, k: Key): (r: ModeState)
    ensures Consistent(s) ==> Consistent(r)
    ensures r.commandMode <==> (if s.commandMode then k != Esc && k != Enter else k == Esc)
    ensures !s.commandMode ==> r.command == s.command
    ensures s.commandMode && k.Runes? ==> r.command == s.command + [k.first]
    ensures s.commandMode && k == Backspace && s.command != [] ==> r.command + [s.command[|s.command| - 1]] == s.command
    ensures s.commandMode && k == Backspace && s.command == [] ==> r == s
    ensures s.commandMode && !k.Runes? && k != Backspace && k != Esc && k != Enter ==> r == s
  {
    if !s.commandMode then
      if k == Esc then ModeState(true, s.command) else s
    else
      match k
      case Esc => ModeState(false, [])
      case Runes(c, _) => ModeState(true, s.command + [c])
      case Backspace =>
        if |s.command| > 0 then ModeState(true, s.command[..|s.command| - 1]) else s
      case Enter => ModeState(false, [])
      case _ => s
  }

  /** The keys pressed one after another. */
  function RunKeys(s: ModeState, keys: seq<Key>): (r: ModeState)
    decreases |keys|
  {
    if keys == [] then s else RunKeys(ModeStep(s, keys[0]), keys[1..])
  }

  /** A buffer that is empty outside command mode stays so under any keys. */
  lemma {:induction false} RunKeysConsistent(s: ModeState, keys: seq<Key>)
    requires Consistent(s)
    ensures Consistent(RunKeys(s, keys))
    decreases |keys|
  {
    if keys != [] {
      RunKeysConsistent(ModeStep(s, keys[0]), keys[1..]);
    }
  }

  /** One rune event per character of text. */
  function Typed(text: string): seq<Key> {
    seq(|text|, i requires 0 <= i < |text| => Runes(text[i], []))
  }

  /** Typing a text in command mode appends exactly that text. */
  lemma {:induction false} TypingAppends(s: ModeState, text: string)
    requires s.commandMode
    ensures RunKeys(s, Typed(text)) == ModeState(true, s.command + text)
    decreases |text|
  {
    if text == [] {
      assert s.command + text == s.command;
    } else {
      var next := ModeState(true, s.command + [text[0]]);
      assert RunKeys(s, Typed(text)) == RunKeys(next, Typed(text[1..])) by {
        var keys := Typed(text);
        assert ModeStep(s, keys[0]) == next;
        assert keys[1..] == Typed(text[1..]);
      }
      TypingAppends(next, text[1..]);
      assert next.command + text[1..] == s.command + text;
    }
  }

  /** Backspace undoes a rune in command mode. */
  lemma {:induction false} BackspaceUndoesRune(s: ModeState, c: char, more: string)
    requires s.commandMode
    ensures ModeStep(ModeStep(s, Runes(c, more)), Backspace) == s
  {
  }

  /** Enter submits and Esc abandons: either way the mode closes with an
      empty buffer, whatever was typed. */
  lemma {:induction false} SessionEnds(text: string, last: Key)
    requires last == Enter || last == Esc
    ensures RunKeys(ModeState(false, []), [Esc] + Typed(text) + [last]) == ModeState(false, [])
  {
    var start := ModeStep(ModeState(false, []), Esc);
    var keys := [Esc] + Typed(text) + [last];
    assert keys[1..] == Typed(text) + [last];
    TypingAppends(start, text);
    RunKeysAppend(start, Typed(text), [last]);
  }

  lemma {:induction false} RunKeysAppend(s: ModeState, a: seq<Key>, b: seq<Key>)
    ensures RunKeys(s, a + b) == RunKeys(RunKeys(s, a), b)
    decreases |a|
  {
    if a == [] {
      assert a + b == b;
    } else {
      assert (a + b)[1..] == a[1..] + b;
      RunKeysAppend(ModeStep(s, a[0]), a[1..], b);
    }
  }

  // The byte representation: the source appends the UTF-8 encoding of the
  // rune and its backspace drops the last byte.

  newtype byte = x: int | 0 <= x < 256

  /** The UTF-8 encoding of one Unicode scalar value. */
  function EncodeRune(c: char): (r: seq<byte>)
    ensures 1 <= |r| <= 4
    ensures |r| == 1 <==> (c as int) < 0x80
    ensures r[0] < 0x80 <==> |r| == 1
  {
    var n := c as int;
    if n < 0x80 then [n as byte]
    else if n < 0x800 then [(0xC0 + n / 0x40) as byte, (0x80 + n % 0x40) as byte]
    else if n < 0x1_0000 then
      [(0xE0 + n / 0x1000) as byte, (0x80 + n / 0x40 % 0x40) as byte, (0x80 + n % 0x40) as byte]
    else
      [(0xF0 + n / 0x4_0000) as byte, (0x80 + n / 0x1000 % 0x40) as byte,
       (0x80 + n / 0x40 % 0x40) as byte, (0x80 + n % 0x40) as byte]
  }

  /** The UTF-8 encoding of a string. */
  function Encode(s: string): (r: seq<byte>)
    ensures |r| >= |s|
  {
    if s == [] then [] else Encode(s[..|s| - 1]) + EncodeRune(s[|s| - 1])
  }

  /** The source's rune event on its byte buffer. */
  function AppendRuneBytes(buffer: seq<byte>, c: char): seq<byte> {
    buffer + EncodeRune(c)
  }

  /** Appending a rune's bytes keeps the buffer the encoding of the typed
      characters: the rune event is right on bytes, only backspace is not. */
  lemma {:induction false} AppendRuneBytesEncodes(s: string, c: char)
    ensures AppendRuneBytes(Encode(s), c) == Encode(s + [c])
  {
  }

  /** The source's backspace as written: drop the last byte of a non-empty
      buffer. */
  function BackspaceBytes(buffer: seq<byte>): (r: seq<byte>)
    ensures buffer != [] ==> r + [buffer[|buffer| - 1]] == buffer
    ensures buffer == [] ==> r == []
  {
    if |buffer| > 0 then buffer[..|buffer| - 1] else buffer
  }

  /** The byte backspace agrees with dropping the last character exactly
      when that character is ASCII. */
  lemma {:induction false} BackspaceBytesAgreesOnAscii(s: string)
    requires s != []
    ensures BackspaceBytes(Encode(s)) == Encode(s[..|s| - 1]) <==> (s[|s| - 1] as int) < 0x80
  {
    var init, last := s[..|s| - 1], s[|s| - 1];
    assert Encode(s) == Encode(init) + EncodeRune(last);
    if (last as int) < 0x80 {
      assert BackspaceBytes(Encode(s)) == Encode(init);
    } else {
      assert |BackspaceBytes(Encode(s))| > |Encode(init)|;
    }
  }

  /** Typing "é" and pressing backspace leaves the lead byte 0xC3 behind: a
      buffer that is not the encoding of any string, where the character
      model gives back the empty buffer. */
  lemma {:induction false} BackspaceLeavesStrayByte()
    ensures BackspaceBytes(AppendRuneBytes([], 'é')) == [0xC3]
    ensures forall s: string :: Encode(s) != [0xC3]
    ensures ModeStep(ModeStep(ModeState(true, []), Runes('é', [])), Backspace) == ModeState(true, [])
  {
  }
}
