/**
 * The application shell of `src/app.rs`: the event, view and command types shared by
 * the whole program, and the dispatcher `App`, which keeps the `exit` flag and the
 * active view, sends commands on its command channel and forwards every other key
 * and command to the active view.
 *
 * The pure function `OnKey` (resp. `OnCommand`) is what one call of
 * `handle_key_event` (resp. `handle_command`) does to the dispatcher's state; the
 * methods of the class `App` are proved to follow them, and the lemmas state what
 * they promise.
 */
module Application {
  import opened Wrappers
  import opened Keys

  /**
   * The events sent on the event channel. `src/app.rs` declares only `Input`; the
   * character editor and the parser also use `Exit` and `Undo`.
   */
  datatype Event = Input(key: KeyEvent) | Exit | Undo

  datatype View = MainMenu | CharacterEditor | CombatTracker

  datatype Command = Exit | View(view: View) | Submit | Next | Previous

  /** A key or command handed on to a view's own handler. */
  datatype Delivery = KeyTo(target: View, key: KeyEvent) | CommandTo(target: View, command: Command)

  /**
   * The dispatcher's state: the exit flag, the active view, the commands sent on the
   * command channel (oldest first) and everything forwarded to the views (oldest first).
   */
  datatype AppState = AppState(exit: bool, view: View, queue: seq<Command>, forwarded: seq<Delivery>)

  /** The view keys '1', '2' and '3' select. */
  function ViewKey(c: char): (v: Option<View>)
  {
    if c == '1' then Some(MainMenu)
    else if c == '2' then Some(CharacterEditor)
    else if c == '3' then Some(CombatTracker)
    else None
  }

  /** `App::handle_key_event` on the state `s`. */
  function OnKey(s: AppState, key: KeyEvent): (r: AppState)
  {
    if key.kind != Press then s
    else
      match key.code
      case Esc => s.(queue := s.queue + [Command.Exit])
      case Char(c) =>
        if ViewKey(c).Some? then s.(view := ViewKey(c).value)
        else s.(forwarded := s.forwarded + [KeyTo(s.view, key)])
      case _ => s.(forwarded := s.forwarded + [KeyTo(s.view, key)])
  }

  /** `App::handle_command` on the state `s`. */
  function OnCommand(s: AppState, command: Command): (r: AppState)
  {
    match command
    case Exit => s.(exit := true)
    case View(v) => s.(view := v)
    case _ => s.(forwarded := s.forwarded + [CommandTo(s.view, command)])
  }

  /** Something the dispatcher handles: a key event or a command. */
  datatype Handled = Key(key: KeyEvent) | Cmd(command: Command)

  function Handle(s: AppState, h: Handled): (r: AppState)
  {
    match h
    case Key(k) => OnKey(s, k)
    case Cmd(c) => OnCommand(s, c)
  }

  /** The state after handling `hs` in order. */
  function HandleAll(s: AppState, hs: seq<Handled>): (r: AppState)
    decreases |hs|
  {
    if hs == [] then s else HandleAll(Handle(s, hs[0]), hs[1..])
  }

  // ---------------------------------------------------------------------------
  // Key events

  /** Only pressed keys are handled; releases and repeats change nothing. */
  lemma NonPressIgnored(s: AppState, key: KeyEvent)
    requires key.kind != Press
    ensures OnKey(s, key) == s
  {
  }

  /**
   * A pressed Esc sends exactly one `Exit` command, at the back of the queue, and
   * changes nothing else: the flag is only set once that command is handled.
   */
  lemma EscSendsExit(s: AppState, key: KeyEvent)
    requires key.kind == Press && key.code == Esc
    ensures OnKey(s, key).queue == s.queue + [Command.Exit]
    ensures OnKey(s, key).exit == s.exit && OnKey(s, key).view == s.view
    ensures OnKey(s, key).forwarded == s.forwarded
  {
  }

  /** Pressed '1', '2' and '3' select a view directly, without sending or forwarding anything. */
  lemma ViewKeysSelect(s: AppState, key: KeyEvent)
    requires key.kind == Press && key.code.Char? && key.code.c in {'1', '2', '3'}
    ensures OnKey(s, key).view == (if key.code.c == '1' then MainMenu
                                   else if key.code.c == '2' then CharacterEditor
                                   else CombatTracker)
    ensures OnKey(s, key).exit == s.exit && OnKey(s, key).queue == s.queue
    ensures OnKey(s, key).forwarded == s.forwarded
  {
  }

  /**
   * Every other pressed key goes to the active view, once and at the end of what it
   * has received, and leaves the flag, the view and the queue alone.
   */
  lemma OtherKeysForwarded(s: AppState, key: KeyEvent)
    requires key.kind == Press && key.code != Esc
    requires !(key.code.Char? && key.code.c in {'1', '2', '3'})
    ensures OnKey(s, key).forwarded == s.forwarded + [KeyTo(s.view, key)]
    ensures OnKey(s, key).exit == s.exit && OnKey(s, key).view == s.view
    ensures OnKey(s, key).queue == s.queue
  {
  }

  /** A key event never changes the exit flag and never removes a sent command. */
  lemma KeyKeepsExit(s: AppState, key: KeyEvent)
    ensures OnKey(s, key).exit == s.exit
    ensures s.queue <= OnKey(s, key).queue && s.forwarded <= OnKey(s, key).forwarded
  {
  }

  // ---------------------------------------------------------------------------
  // Commands

  /** `Exit` sets the flag and leaves the view as it was. */
  lemma ExitCommandExits(s: AppState)
    ensures OnCommand(s, Command.Exit).exit
    ensures OnCommand(s, Command.Exit).view == s.view
    ensures OnCommand(s, Command.Exit).forwarded == s.forwarded
  {
  }

  /** `View(v)` makes `v` the active view and leaves the flag as it was. */
  lemma ViewCommandSelects(s: AppState, v: View)
    ensures OnCommand(s, Command.View(v)).view == v
    ensures OnCommand(s, Command.View(v)).exit == s.exit
    ensures OnCommand(s, Command.View(v)).forwarded == s.forwarded
  {
  }

  /** Every other command goes to the active view and leaves the flag and the view alone. */
  lemma OtherCommandsForwarded(s: AppState, command: Command)
    requires !command.Exit? && !command.View?
    ensures OnCommand(s, command).forwarded == s.forwarded + [CommandTo(s.view, command)]
    ensures OnCommand(s, command).exit == s.exit && OnCommand(s, command).view == s.view
  {
  }

  /** After a command the flag is set exactly when it was already set or the command was `Exit`. */
  lemma CommandExitIff(s: AppState, command: Command)
    ensures OnCommand(s, command).exit <==> s.exit || command == Command.Exit
  {
  }

  /** Handling a command never sends one. */
  lemma CommandKeepsQueue(s: AppState, command: Command)
    ensures OnCommand(s, command).queue == s.queue
  {
  }

  // ---------------------------------------------------------------------------
  // Sequences of keys and commands

  /** The flag is monotone: once set, no key or command clears it. */
  lemma {:induction false} ExitIsFinal(s: AppState, hs: seq<Handled>)
    requires s.exit
    ensures HandleAll(s, hs).exit
    decreases |hs|
  {
    if hs != [] {
      match hs[0] {
        case Key(k) => KeyKeepsExit(s, k);
        case Cmd(c) => CommandExitIff(s, c);
      }
      ExitIsFinal(Handle(s, hs[0]), hs[1..]);
    }
  }

  /** The flag is set at the end exactly when it was set at the start or an `Exit` command was handled. */
  lemma {:induction false} ExitIffExitCommand(s: AppState, hs: seq<Handled>)
    ensures HandleAll(s, hs).exit <==> s.exit || Cmd(Command.Exit) in hs
    decreases |hs|
  {
    if hs != [] {
      var s' := Handle(s, hs[0]);
      match hs[0] {
        case Key(k) => KeyKeepsExit(s, k);
        case Cmd(c) => CommandExitIff(s, c);
      }
      ExitIffExitCommand(s', hs[1..]);
      assert hs == [hs[0]] + hs[1..];
    }
  }

  /** Whether `h` makes `v` the active view: a view key or a `View(v)` command. */
  predicate Selects(h: Handled, v: View)
  {
    match h
    case Key(k) => k.kind == Press && k.code.Char? && ViewKey(k.code.c) == Some(v)
    case Cmd(c) => c == Command.View(v)
  }

  /** The active view at the end is the one at the start or one that some key or command selected. */
  lemma {:induction false} ViewComesFromSelection(s: AppState, hs: seq<Handled>)
    ensures var v := HandleAll(s, hs).view;
            v == s.view || exists i :: 0 <= i < |hs| && Selects(hs[i], v)
    decreases |hs|
  {
    if hs != [] {
      var s' := Handle(s, hs[0]);
      ViewComesFromSelection(s', hs[1..]);
      var v := HandleAll(s, hs).view;
      if v != s'.view {
        var i :| 0 <= i < |hs[1..]| && Selects(hs[1..][i], v);
        assert hs[i + 1] == hs[1..][i];
      } else if v != s.view {
        assert Selects(hs[0], v);
      }
    }
  }

  /** Pressing Esc and then handling the command it sent leaves the application exiting. */
  lemma EscThenItsCommandExits(s: AppState, key: KeyEvent)
    requires key.kind == Press && key.code == Esc
    ensures var s' := OnKey(s, key);
            s'.queue[|s'.queue| - 1] == Command.Exit && OnCommand(s', Command.Exit).exit
  {
    EscSendsExit(s, key);
    ExitCommandExits(OnKey(s, key));
  }

  // ---------------------------------------------------------------------------
  // The dispatcher object

  class App {
    var exit: bool
    var view: View
    /** The keys of `view_map`: the views with a registered handler. */
    var registered: set<View>
    /** What was sent on the command channel, oldest first. */
    ghost var commandQueue: seq<Command>
    /** What the views' own handlers received, oldest first. */
    ghost var forwarded: seq<Delivery>

    /** Every view has a handler, so the lookups of the active view always succeed. */
    predicate Valid()
      reads this
    {
      forall v: View :: v in registered
    }

    ghost function State(): AppState
      reads this
    {
      AppState(exit, view, commandQueue, forwarded)
    }

    /** The application as `main` builds it: every view registered, the main menu active. */
    constructor ()
      ensures Valid()
      ensures State() == AppState(false, MainMenu, [], [])
    {
      exit := false;
      view := MainMenu;
      registered := {MainMenu, CharacterEditor, CombatTracker};
      commandQueue := [];
      forwarded := [];
      new;
      forall v: View
        ensures v in registered
      {
        match v
        case MainMenu =>
        case CharacterEditor =>
        case CombatTracker =>
      }
    }

    method HandleKeyEvent(key: KeyEvent)
      requires Valid()
      modifies this
      ensures Valid() && registered == old(registered)
      ensures State() == OnKey(old(State()), key)
    {
      if key.kind == Press {
        match key.code
        case Esc =>
          commandQueue := commandQueue + [Command.Exit];
        case Char(c) =>
          if c == '1' {
            view := MainMenu;
          } else if c == '2' {
            view := CharacterEditor;
          } else if c == '3' {
            view := CombatTracker;
          } else {
            assert view in registered;
            forwarded := forwarded + [KeyTo(view, key)];
          }
        case _ =>
          assert view in registered;
          forwarded := forwarded + [KeyTo(view, key)];
      }
    }

    method HandleCommand(command: Command)
      requires Valid()
      modifies this
      ensures Valid() && registered == old(registered)
      ensures State() == OnCommand(old(State()), command)
    {
      match command
      case Exit =>
        exit := true;
      case View(v) =>
        view := v;
      case _ =>
        var active := view;
        assert active in registered;
        forwarded := forwarded + [CommandTo(active, command)];
    }
  }
}
