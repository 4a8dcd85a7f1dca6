/** `src/utils/memory_manager.py`: per-user conversation history, bounded to the
    newest entries. Message timestamps are not modelled. */
module Memory {
  import opened Strings

  datatype Message = Message(role: string, text: string)

  /** The list after `add_message`'s bound check: `history[-n:]` when the history is
      longer than `n`, with Python's slice semantics for every `n`. */
  function Truncate(history: seq<Message>, n: int): (r: seq<Message>)
    ensures n >= 1 ==> |r| == (if |history| > n then n else |history|)
    ensures n >= 1 ==> history == history[..|history| - |r|] + r
    ensures n == 0 ==> r == history
  {
    if |history| <= n then history
    else if n > 0 then history[|history| - n..]
    else if n == 0 then history
    else history[(if -n < |history| then -n else |history|)..]
  }

  /** `get_history_as_text`'s line for one message. */
  function Line(m: Message): string {
    (if m.role == "user" then "User" else "Assistant") + ": " + m.text
  }

  function Lines(history: seq<Message>): (r: seq<string>)
    ensures |r| == |history| && forall i :: 0 <= i < |history| ==> r[i] == Line(history[i])
  {
    seq(|history|, i requires 0 <= i < |history| => Line(history[i]))
  }

  /** The text form of a history: one line per message, or "" for none. */
  function HistoryText(history: seq<Message>): string {
    if history == [] then "" else Join(Lines(history), "\n")
  }

  class MemoryManager {
    var memory: map<int, seq<Message>>
    const maxHistoryLength: int

    constructor(maxHistoryLength: int)
      ensures memory == map[] && this.maxHistoryLength == maxHistoryLength
    {
      memory := map[];
      this.maxHistoryLength := maxHistoryLength;
    }

    /** `get_history`: the user's list, empty for an unknown user. */
    function GetHistory(userId: int): (r: seq<Message>)
      reads this
      ensures userId !in memory ==> r == []
      ensures userId in memory ==> r == memory[userId]
    {
      if userId in memory then memory[userId] else []
    }

    /** `add_message`: the message goes to the end of that user's history, which is
        then cut to the newest `maxHistoryLength` entries; other users are untouched. */
    method AddMessage(userId: int, role: string, text: string)
      modifies this
      ensures memory == old(memory)[userId := Truncate(old(GetHistory(userId)) + [Message(role, text)], maxHistoryLength)]
      ensures maxHistoryLength >= 1 ==> 1 <= |memory[userId]| <= maxHistoryLength
      ensures maxHistoryLength >= 1 ==> memory[userId][|memory[userId]| - 1] == Message(role, text)
      ensures forall u :: u != userId ==> (u in memory <==> u in old(memory))
      ensures forall u :: u != userId && u in memory ==> memory[u] == old(memory)[u]
    {
      if userId !in memory {
        memory := memory[userId := []];
      }
      memory := memory[userId := memory[userId] + [Message(role, text)]];
      if |memory[userId]| > maxHistoryLength {
        var h := memory[userId];
        var n := maxHistoryLength;
        var start := if n > 0 then |h| - n else if n == 0 then 0 else if -n < |h| then -n else |h|;
        memory := memory[userId := h[start..]];
      }
    }

    /** `get_history_as_text`: formats each message in a loop, then joins the lines. */
    method GetHistoryAsText(userId: int) returns (text: string)
      ensures text == HistoryText(GetHistory(userId))
    {
      var history := GetHistory(userId);
      if history == [] {
        return "";
      }
      var formatted: seq<string> := [];
      var i := 0;
      while i < |history|
        invariant 0 <= i <= |history|
        invariant formatted == Lines(history[..i])
      {
        var role := if history[i].role == "user" then "User" else "Assistant";
        formatted := formatted + [role + ": " + history[i].text];
        i := i + 1;
      }
      assert history[..i] == history;
      text := Join(formatted, "\n");
    }

    /** `clear_history`: forgets the user; a no-op for an unknown user. */
    method ClearHistory(userId: int)
      modifies this
      ensures memory == old(memory) - {userId}
    {
      if userId in memory {
        memory := memory - {userId};
      }
    }
  }

  // ---------------------------------------------------------------------------
  // Properties

  /** With a bound of at least one, adding a message keeps at most that many
      entries: the newest ones, in order, ending with the new message. */
  lemma AddKeepsNewest(history: seq<Message>, m: Message, n: int)
    requires n >= 1
    ensures var r := Truncate(history + [m], n);
      1 <= |r| <= n && r[|r| - 1] == m && (history + [m])[|history| + 1 - |r|..] == r
  {
    var all := history + [m];
    var r := Truncate(all, n);
    assert all == all[..|all| - |r|] + r;
    assert all[|all| - |r|..] == r;
  }

  /** A bound of zero keeps everything: Python's `[-0:]` is the whole list. */
  lemma ZeroBoundKeepsAll(history: seq<Message>, m: Message)
    ensures Truncate(history + [m], 0) == history + [m]
  {
  }

  /** The text of a non-empty history ends with the line of its newest message. */
  lemma HistoryTextEndsWithLast(history: seq<Message>)
    requires history != []
    ensures EndsWith(HistoryText(history), Line(history[|history| - 1]))
  {
    var n := |history|;
    var last := Line(history[n - 1]);
    if n == 1 {
      assert Lines(history) == [last];
      assert HistoryText(history)[0..] == last;
    } else {
      assert Lines(history) == Lines(history[..n - 1]) + [last];
      JoinSnoc(Lines(history[..n - 1]), "\n", last);
      SuffixEndsWith(Join(Lines(history[..n - 1]), "\n") + "\n", last);
    }
  }

  /** The text is empty exactly for an empty history, and otherwise splits back
      into one line per message when no message text holds a line break. */
  lemma HistoryTextLines(history: seq<Message>)
    requires forall i :: 0 <= i < |history| ==> '\n' !in history[i].text
    ensures HistoryText(history) == "" <==> history == []
    ensures history != [] ==> Split(HistoryText(history), '\n') == Lines(history)
  {
    if history != [] {
      var lines := Lines(history);
      forall i | 0 <= i < |lines| ensures '\n' !in lines[i] {
        var prefix := if history[i].role == "user" then "User" else "Assistant";
        assert lines[i] == prefix + ": " + history[i].text;
      }
      SplitJoin(lines, '\n');
      assert Split(HistoryText(history), '\n') == lines;
    }
  }
}
