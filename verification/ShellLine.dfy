// The editor as it runs: a buffer of 256 characters shifted in place, and a ring of ten commands.
module ShellLine {
  import opened ShellEditor

  const BUFFER: nat := 256

  class LineEditor {
    const buf: array<char>
    var ptr: nat
    var cursor: nat
    const history: array<string>
    var count: nat
    var index: nat
    ghost var log: seq<string>

    // The ring holds the newest entry of each place.
    ghost predicate Valid()
      reads this, buf, history
    {
      && buf.Length == BUFFER && history.Length == HISTORY_SIZE
      && cursor <= ptr <= MOST && count == |log|
      && Sound(State())
      && forall j :: 0 <= j < |log| && |log| <= j + HISTORY_SIZE ==> history[j % HISTORY_SIZE] == log[j]
    }

    ghost function State(): Editor
      requires buf.Length == BUFFER && cursor <= ptr <= MOST
      reads this, buf
    {
      Editor(buf[..cursor], buf[cursor..ptr], log, index)
    }

    constructor ()
      ensures Valid() && State() == Editor("", "", [], 0) && fresh(buf) && fresh(history)
    {
      buf := new char[BUFFER](_ => NUL);
      history := new string[HISTORY_SIZE](_ => "");
      ptr, cursor, count, index, log := 0, 0, 0, 0, [];
    }

    method MoveLeft()
      requires Valid()
      modifies this`cursor
      ensures Valid() && State() == Step(old(State()), Left)
    {
      if cursor > 0 {
        cursor := cursor - 1;
      }
    }

    method MoveRight()
      requires Valid()
      modifies this`cursor
      ensures Valid() && State() == Step(old(State()), Right)
    {
      if cursor < ptr {
        cursor := cursor + 1;
      }
    }

    method Insert(c: char)
      requires Valid() && c != NUL && c != '\n' && c != BACKSPACE
      modifies this`ptr, this`cursor, buf
      ensures Valid() && State() == Step(old(State()), Key(c))
    {
      if ptr < MOST {
        ShiftUp();
        buf[cursor] := c;
        ptr := ptr + 1;
        cursor := cursor + 1;
        assert State() == Step(old(State()), Key(c));
        StepSound(old(State()), Key(c));
      }
    }

    // The characters from the cursor on move up by one.
    method ShiftUp()
      requires buf.Length == BUFFER && cursor <= ptr < MOST
      modifies buf
      ensures forall k :: 0 <= k < cursor ==> buf[k] == old(buf[k])
      ensures forall k :: cursor < k <= ptr ==> buf[k] == old(buf[k - 1])
    {
      var i := ptr;
      while i > cursor
        invariant cursor <= i <= ptr
        invariant forall k :: 0 <= k <= i ==> buf[k] == old(buf[k])
        invariant forall k :: i < k <= ptr ==> buf[k] == old(buf[k - 1])
      {
        buf[i] := buf[i - 1];
        i := i - 1;
      }
    }

    method DeleteBefore()
      requires Valid()
      modifies this`ptr, this`cursor, buf
      ensures Valid() && State() == Step(old(State()), Key(BACKSPACE))
    {
      if cursor > 0 {
        ShiftDown(cursor - 1);
        ptr := ptr - 1;
        cursor := cursor - 1;
        buf[ptr] := NUL;
        assert State() == Step(old(State()), Key(BACKSPACE));
        StepSound(old(State()), Key(BACKSPACE));
      }
    }

    method DeleteAt()
      requires Valid()
      modifies this`ptr, buf
      ensures Valid() && State() == Step(old(State()), DeleteHere)
    {
      if cursor < ptr {
        ShiftDown(cursor);
        ptr := ptr - 1;
        buf[ptr] := NUL;
        assert State() == Step(old(State()), DeleteHere);
        StepSound(old(State()), DeleteHere);
      }
    }

    // The characters after `at` move down over it.
    method ShiftDown(at: nat)
      requires buf.Length == BUFFER && at < ptr <= MOST
      modifies buf
      ensures forall k :: 0 <= k < at ==> buf[k] == old(buf[k])
      ensures forall k :: at <= k < ptr - 1 ==> buf[k] == old(buf[k + 1])
    {
      for i := at to ptr - 1
        invariant forall k :: 0 <= k < at ==> buf[k] == old(buf[k])
        invariant forall k :: at <= k < i ==> buf[k] == old(buf[k + 1])
        invariant forall k :: i <= k < ptr ==> buf[k] == old(buf[k])
      {
        buf[i] := buf[i + 1];
      }
    }

    method AddToHistory(command: string)
      requires Valid() && 0 < |command| <= MOST && NUL !in command
      modifies this`count, this`index, this`log, history
      ensures Valid() && log == old(log) + [command] && index == |log|
    {
      history[count % HISTORY_SIZE] := command;
      count := count + 1;
      index := count;
      log := log + [command];
      assert forall j :: 0 <= j < |log| - 1 && |log| <= j + HISTORY_SIZE ==> j % HISTORY_SIZE != (|log| - 1) % HISTORY_SIZE;
    }

    // strcpy from the ring into the buffer.
    method Load(at: nat)
      requires Valid() && at < count
      modifies this`ptr, this`cursor, buf
      ensures Valid() && State() == Editor(Recall(log, at), "", log, index)
    {
      var text := history[at % HISTORY_SIZE];
      assert text == log[Latest(|log|, at)];
      for i := 0 to |text|
        invariant buf[..i] == text[..i]
      {
        buf[i] := text[i];
      }
      buf[|text|] := NUL;
      ptr := |text|;
      cursor := ptr;
      assert buf[..cursor] == text && buf[cursor..ptr] == "";
    }

    method PreviousHistory()
      requires Valid()
      modifies this`ptr, this`cursor, this`index, buf
      ensures Valid() && State() == Step(old(State()), Up)
    {
      if count > 0 && index > 0 {
        index := index - 1;
        Load(index);
      }
    }

    method NextHistory()
      requires Valid()
      modifies this`ptr, this`cursor, this`index, buf
      ensures Valid() && State() == Step(old(State()), Down)
    {
      if count > 0 {
        if index + 1 < count {
          index := index + 1;
          Load(index);
        } else if index + 1 == count {
          index := index + 1;
          ptr, cursor := 0, 0;
          buf[0] := NUL;
        }
      }
    }

    // Enter, backspace, or a character; the command goes to the log before it is run.
    method HandleKey(c: char) returns (command: string)
      requires Valid() && c != NUL
      modifies this`ptr, this`cursor, this`count, this`index, this`log, buf, history
      ensures Valid() && State() == Step(old(State()), Key(c))
      ensures command == if c == '\n' then old(State().left + State().right) else ""
    {
      command := "";
      if c == '\n' {
        buf[ptr] := NUL;
        command := buf[..ptr];
        assert command == old(State().left + State().right);
        if ptr > 0 {
          AddToHistory(command);
        }
        ptr, cursor := 0, 0;
      } else if c == BACKSPACE {
        DeleteBefore();
      } else if ptr < MOST {
        Insert(c);
      }
    }

    method Handle(event: Event)
      requires Valid()
      modifies this`ptr, this`cursor, this`count, this`index, this`log, buf, history
      ensures Valid() && State() == Step(old(State()), event)
    {
      match event
      case Left => MoveLeft();
      case Right => MoveRight();
      case Up => PreviousHistory();
      case Down => NextHistory();
      case DeleteHere => DeleteAt();
      case Key(c) =>
        if c != NUL {
          var _ := HandleKey(c);
        }
    }

    // Any sequence of keys from the start.
    method HandleAll(events: seq<Event>)
      requires Valid()
      modifies this`ptr, this`cursor, this`count, this`index, this`log, buf, history
      ensures Valid() && State() == Run(old(State()), events)
    {
      hide Step, Sound;
      for i := 0 to |events|
        invariant Valid() && Run(State(), events[i..]) == Run(old(State()), events)
      {
        assert events[i..][1..] == events[i + 1..];
        Handle(events[i]);
      }
    }
  }
}
