/**
 * The character editor view (`src/views/character_editor.rs`): a one-line input
 * buffer edited key by key, which sends `Exit` and `Undo` on the event channel and
 * hands its content to the lexer when Enter is pressed.
 *
 * `EditedInput` and `SentEvents` say what one key does to the buffer and to the
 * channel; the class `CharacterEditor` is proved to follow them.
 */
module CharacterEditorView {
  import opened Chars
  import opened Keys
  import opened CharacterEditorLexer
  import Application

  /** A character the buffer accepts: alphanumeric, a space or ASCII punctuation. */
  predicate IsTypeable(c: char)
  {
    IsAlphanumeric(c) || c == ' ' || IsAsciiPunctuation(c)
  }

  predicate AllTypeable(s: string)
  {
    forall i :: 0 <= i < |s| ==> IsTypeable(s[i])
  }

  /** The character a typed key adds: upper-cased (ASCII only) while Shift is held. */
  function TypedChar(key: KeyEvent, c: char): (r: char)
  {
    if key.shift then ToAsciiUppercase(c) else c
  }

  /** The buffer after `key`, as `handle_key_event` leaves it. */
  function EditedInput(input: string, key: KeyEvent): (r: string)
  {
    if key.kind != Press then input
    else
      match key.code
      case Char(c) =>
        if !key.ctrl && IsTypeable(c) then input + [TypedChar(key, c)] else input
      case Backspace =>
        if input == [] then input else input[..|input| - 1]
      case Enter => []
      case _ => input
  }

  /** What `handle_key_event` sends on the event channel for `key`. */
  function SentEvents(key: KeyEvent): (r: seq<Application.Event>)
  {
    if key.kind != Press then []
    else
      match key.code
      case Esc => [Application.Event.Exit]
      case Char(c) => if key.ctrl && c == 'z' then [Application.Event.Undo] else []
      case _ => []
  }

  // ---------------------------------------------------------------------------
  // One key

  /** Releases and repeats change neither the buffer nor the channel. */
  lemma NonPressChangesNothing(input: string, key: KeyEvent)
    requires key.kind != Press
    ensures EditedInput(input, key) == input && SentEvents(key) == []
  {
  }

  /**
   * A plain character is appended at the end when it is alphanumeric, a space or ASCII
   * punctuation, upper-cased when Shift is held; any other character leaves the
   * buffer as it was. Nothing is sent either way.
   */
  lemma TypingAppends(input: string, key: KeyEvent)
    requires key.kind == Press && key.code.Char? && !key.ctrl
    ensures IsTypeable(key.code.c) ==>
              EditedInput(input, key) == input + [if key.shift then ToAsciiUppercase(key.code.c) else key.code.c]
    ensures !IsTypeable(key.code.c) ==> EditedInput(input, key) == input
    ensures SentEvents(key) == []
  {
  }

  /** With Shift, a lower-case ASCII letter is added as its upper-case form. */
  lemma ShiftUpperCases(input: string, key: KeyEvent)
    requires key.kind == Press && key.code.Char? && !key.ctrl && key.shift
    requires 'a' <= key.code.c <= 'z'
    ensures var r := EditedInput(input, key);
            |r| == |input| + 1 && r[..|input|] == input
            && 'A' <= r[|input|] <= 'Z' && r[|input|] as int == key.code.c as int - 32
  {
    assert IsTypeable(key.code.c);
  }

  /** With Control held no character edits the buffer; Ctrl+z sends exactly one `Undo`. */
  lemma ControlNeverEdits(input: string, key: KeyEvent)
    requires key.kind == Press && key.code.Char? && key.ctrl
    ensures EditedInput(input, key) == input
    ensures SentEvents(key) == (if key.code.c == 'z' then [Application.Event.Undo] else [])
  {
  }

  /** Backspace removes exactly the last character, and does nothing to an empty buffer. */
  lemma BackspaceRemovesLast(input: string, key: KeyEvent)
    requires key.kind == Press && key.code == Backspace
    ensures input == [] ==> EditedInput(input, key) == []
    ensures input != [] ==> EditedInput(input, key) + [input[|input| - 1]] == input
    ensures SentEvents(key) == []
  {
  }

  /** Esc sends exactly one `Exit` and leaves the buffer alone. */
  lemma EscSendsExit(input: string, key: KeyEvent)
    requires key.kind == Press && key.code == Esc
    ensures EditedInput(input, key) == input && SentEvents(key) == [Application.Event.Exit]
  {
  }

  /** Enter always leaves the buffer empty and sends nothing. */
  lemma EnterClears(input: string, key: KeyEvent)
    requires key.kind == Press && key.code == Enter
    ensures EditedInput(input, key) == [] && SentEvents(key) == []
  {
  }

  /** At most one event is sent per key: `Exit` exactly for Esc and `Undo` exactly for Ctrl+z. */
  lemma SentEventsIff(key: KeyEvent)
    ensures |SentEvents(key)| <= 1
    ensures SentEvents(key) == [Application.Event.Exit] <==> key.kind == Press && key.code == Esc
    ensures SentEvents(key) == [Application.Event.Undo] <==>
              key.kind == Press && key.code == Char('z') && key.ctrl
  {
  }

  /** Backspace undoes the typing of an accepted character. */
  lemma BackspaceUndoesTyping(input: string, typed: KeyEvent, back: KeyEvent)
    requires typed.kind == Press && typed.code.Char? && !typed.ctrl && IsTypeable(typed.code.c)
    requires back.kind == Press && back.code == Backspace
    ensures EditedInput(EditedInput(input, typed), back) == input
  {
    var r := EditedInput(input, typed);
    assert r[..|r| - 1] == input;
  }

  // ---------------------------------------------------------------------------
  // The buffer's invariant and whole texts

  lemma UpperCaseTypeable(c: char)
    requires IsTypeable(c)
    ensures IsTypeable(ToAsciiUppercase(c))
  {
  }

  /** The buffer only ever holds characters a key can add. */
  lemma EditingKeepsTypeable(input: string, key: KeyEvent)
    requires AllTypeable(input)
    ensures AllTypeable(EditedInput(input, key))
  {
    if key.kind == Press && key.code.Char? && !key.ctrl && IsTypeable(key.code.c) {
      UpperCaseTypeable(key.code.c);
      var r := EditedInput(input, key);
      assert forall i :: 0 <= i < |input| ==> r[i] == input[i];
    }
  }

  /** The buffer after the keys `keys`, in order. */
  function EditedInputs(input: string, keys: seq<KeyEvent>): string
    decreases |keys|
  {
    if keys == [] then input else EditedInputs(EditedInput(input, keys[0]), keys[1..])
  }

  /** The plain key presses that type `text`. */
  function Keystrokes(text: string): seq<KeyEvent>
    decreases |text|
  {
    if text == [] then [] else [Pressed(Char(text[0]))] + Keystrokes(text[1..])
  }

  /** Typing a text of accepted characters appends exactly that text. */
  lemma {:induction false} TypingAppendsText(input: string, text: string)
    requires AllTypeable(text)
    ensures EditedInputs(input, Keystrokes(text)) == input + text
    decreases |text|
  {
    if text == [] {
      assert input + text == input;
    } else {
      var c := text[0];
      var keys := Keystrokes(text);
      assert IsTypeable(c);
      assert keys[0] == Pressed(Char(c)) && keys[1..] == Keystrokes(text[1..]);
      assert EditedInput(input, keys[0]) == input + [c];
      assert AllTypeable(text[1..]) by {
        assert forall i :: 0 <= i < |text[1..]| ==> text[1..][i] == text[i + 1];
      }
      TypingAppendsText(input + [c], text[1..]);
      assert input + [c] + text[1..] == input + text;
    }
  }

  /** The presses of Backspace that delete `n` characters. */
  function Backspaces(n: nat): seq<KeyEvent>
  {
    seq(n, i => Pressed(Backspace))
  }

  /** As many Backspaces as there are characters in the buffer empty it. */
  lemma {:induction false} BackspacesEmpty(input: string, extra: nat)
    ensures EditedInputs(input, Backspaces(|input| + extra)) == []
    decreases |input| + extra
  {
    var keys := Backspaces(|input| + extra);
    if keys != [] {
      var r := EditedInput(input, keys[0]);
      assert keys[1..] == Backspaces(|keys| - 1);
      if input == [] {
        BackspacesEmpty(r, extra - 1);
      } else {
        BackspacesEmpty(r, extra);
      }
    }
  }

  // ---------------------------------------------------------------------------
  // The view object

  class CharacterEditor {
    /** The command line being typed. */
    var input: string
    /** The events sent on the event channel, oldest first. */
    ghost var sent: seq<Application.Event>

    /** The buffer holds only characters a key can add. */
    predicate Valid()
      reads this
    {
      AllTypeable(input)
    }

    constructor ()
      ensures Valid()
      ensures input == [] && sent == []
    {
      input := [];
      sent := [];
    }

    method HandleKeyEvent(key: KeyEvent)
      requires Valid()
      modifies this
      ensures Valid()
      ensures input == EditedInput(old(input), key)
      ensures sent == old(sent) + SentEvents(key)
    {
      EditingKeepsTypeable(input, key);
      if key.kind == Press {
        match key.code
        case Esc =>
          sent := sent + [Application.Event.Exit];
        case Char(c) =>
          if key.ctrl {
            if c == 'z' {
              sent := sent + [Application.Event.Undo];
            }
          } else if IsAlphanumeric(c) || c == ' ' || IsAsciiPunctuation(c) {
            input := input + [if key.shift then ToAsciiUppercase(c) else c];
          }
        case Backspace =>
          if input != [] {
            input := input[..|input| - 1];
          }
        case Enter =>
          var tokens := Lex(input);
          input := [];
        case Other =>
      }
    }

    method HandleEvent(event: Application.Event)
      requires Valid()
      modifies this
      ensures Valid()
      ensures event.Input? ==> input == EditedInput(old(input), event.key)
      ensures event.Input? ==> sent == old(sent) + SentEvents(event.key)
      ensures !event.Input? ==> input == old(input) && sent == old(sent)
    {
      if event.Input? {
        HandleKeyEvent(event.key);
      }
    }
  }
}
