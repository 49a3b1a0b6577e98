/**
 Prompts that are packed again (chat_api.py): how a message's prompt changes once the message has become a turn of
 its own conversation, exactly when it does not, and exactly when any two prompts of single lines are the same text.
*/
module ChatRepeats {
  import opened Wrappers
  import opened Json
  import opened ChatPrompt

  lemma {:induction false} RenderedConcat(a: seq<Turn>, b: seq<Turn>)
    ensures Rendered(a + b) == Rendered(a) + Rendered(b)
  {
    if a == [] {
      assert a + b == b && Rendered(a) + Rendered(b) == Rendered(b);
    } else {
      RenderedConcat(a[1..], b);
      assert (a + b)[1..] == a[1..] + b && (a + b)[0] == a[0];
      Regrouped(Line(a[0]), Rendered(a[1..]), Rendered(b));
    }
  }

  lemma Regrouped(a: Utf8, b: Utf8, c: Utf8)
    ensures a + b + c == a + (b + c)
  {
  }

  lemma RenderedOne(turn: Turn)
    ensures Rendered([turn]) == Line(turn)
  {
    assert [turn][1..] == [] && Line(turn) + "" == Line(turn);
  }

  /** What a message packs into once it has become a turn of the conversation itself. */
  function PackAgain(memory: Utf8, history: seq<Turn>, content: Utf8): Option<seq<Turn>> {
    Pack(memory, AllTurns(history, content), content)
  }

  /** The turns of the first prompt that make room for the message the second time, and those that stay. */
  function Dropped(first: seq<Turn>, again: seq<Turn>): nat {
    if |again| <= |first| then |first| + 1 - |again| else 0
  }

  /** The bytes left for the rendered turns. */
  function Room(memory: Utf8): int {
    MAX_INPUT_BYTES - |PREFIX| - |memory| - |SUFFIX|
  }

  predicate Within(room: int, turns: seq<Turn>) {
    |Rendered(turns)| <= room
  }

  ghost predicate LongestWithin(room: int, turns: seq<Turn>, included: seq<Turn>) {
    && 0 < |included| <= |turns| && included == turns[|turns| - |included|..] && Within(room, included)
    && (|included| < |turns| ==> !Within(room, turns[|turns| - |included| - 1..]))
  }

  lemma FitsMeansWithin(memory: Utf8, turns: seq<Turn>)
    ensures Fits(memory, turns) <==> Within(Room(memory), turns)
  {
  }

  lemma LongestMeansWithin(memory: Utf8, turns: seq<Turn>, included: seq<Turn>)
    requires LongestSuffix(memory, turns, included)
    ensures LongestWithin(Room(memory), turns, included)
  {
    FitsMeansWithin(memory, included);
    if |included| < |turns| {
      FitsMeansWithin(memory, turns[|turns| - |included| - 1..]);
    }
  }

  /** Within any room, too, a suffix fits exactly when it is no longer than the longest. */
  lemma SuffixWithin(room: int, turns: seq<Turn>, included: seq<Turn>, n: nat)
    requires LongestWithin(room, turns, included) && n <= |turns|
    ensures Within(room, turns[|turns| - n..]) <==> n <= |included|
  {
    var rest := turns[|turns| - n..];
    if n <= |included| {
      RenderedGrows(included, |included| - n);
      assert included[|included| - n..] == rest;
    } else {
      RenderedGrows(rest, n - |included| - 1);
      assert rest[n - |included| - 1..] == turns[|turns| - |included| - 1..];
    }
  }

  /** The last turns with the message after them. */
  lemma LastTurns<T>(turns: seq<T>, message: T, n: nat)
    requires n <= |turns|
    ensures |turns + [message]| - (n + 1) == |turns| - n
    ensures (turns + [message])[|turns + [message]| - (n + 1)..] == turns[|turns| - n..] + [message]
  {
  }

  lemma AtLeastIfItFits(room: int, turns: seq<Turn>, message: Turn, first: seq<Turn>, again: seq<Turn>)
    requires LongestWithin(room, turns, first) && LongestWithin(room, turns + [message], again)
    ensures Within(room, first + [message]) <==> |again| >= |first| + 1
  {
    EndWithMessage(room, turns, message, again, |first|);
  }

  lemma EndWithMessage(room: int, turns: seq<Turn>, message: Turn, again: seq<Turn>, n: nat)
    requires n <= |turns| && LongestWithin(room, turns + [message], again)
    ensures Within(room, turns[|turns| - n..] + [message]) <==> n + 1 <= |again|
  {
    LastTurns(turns, message, n);
    SuffixWithin(room, turns + [message], again, n + 1);
  }

  lemma WithinWithout(room: int, turns: seq<Turn>, message: Turn)
    requires Within(room, turns + [message])
    ensures Within(room, turns)
  {
    RenderedConcat(turns, [message]);
  }

  lemma NotLongerAgain(room: int, turns: seq<Turn>, message: Turn, first: seq<Turn>, again: seq<Turn>)
    requires LongestWithin(room, turns, first) && LongestWithin(room, turns + [message], again)
    ensures |again| <= |first| + 1
  {
    if |first| < |turns| && |again| > |first| + 1 {
      EndWithMessage(room, turns, message, again, |first| + 1);
      WithinWithout(room, turns[|turns| - |first| - 1..], message);
    }
  }

  /** An end of the longer list is an end of the shorter one without its oldest turns, and the message. */
  lemma PushedOut(turns: seq<Turn>, message: Turn, first: seq<Turn>, again: seq<Turn>)
    requires |first| <= |turns| && first == turns[|turns| - |first|..]
    requires 0 < |again| <= |first| + 1 && again == (turns + [message])[|turns| + 1 - |again|..]
    ensures var dropped := Dropped(first, again); dropped <= |first| && again == first[dropped..] + [message]
  {
    LastTurns(turns, message, |again| - 1);
    EndOfEnd(turns, first, |again| - 1);
  }

  lemma EndOfEnd<T>(turns: seq<T>, first: seq<T>, n: nat)
    requires n <= |first| <= |turns| && first == turns[|turns| - |first|..]
    ensures turns[|turns| - n..] == first[|first| - n..]
  {
  }

  /** Within any room, the second packing drops the oldest turns of the first, and none iff all still fit. */
  lemma DroppedWithin(room: int, turns: seq<Turn>, message: Turn, first: seq<Turn>, again: seq<Turn>)
    requires LongestWithin(room, turns, first) && LongestWithin(room, turns + [message], again)
    ensures var dropped := Dropped(first, again); dropped <= |first| && again == first[dropped..] + [message]
    ensures Dropped(first, again) == 0 <==> Within(room, first + [message])
  {
    NotLongerAgain(room, turns, message, first, again);
    AtLeastIfItFits(room, turns, message, first, again);
    PushedOut(turns, message, first, again);
  }

  /** The second prompt is the first without its oldest turns, followed by the message; none are dropped iff all fit. */
  lemma PackedAgain(memory: Utf8, history: seq<Turn>, content: Utf8)
    requires Fits(memory, [Turn(User, content)])
    ensures Pack(memory, history, content).Some? && PackAgain(memory, history, content).Some?
    ensures var first, again := Pack(memory, history, content).value, PackAgain(memory, history, content).value;
      var dropped := Dropped(first, again);
      && dropped <= |first| && again == first[dropped..] + [Turn(User, content)]
      && (dropped == 0 <==> Fits(memory, first + [Turn(User, content)]))
  {
    var message := Turn(User, content);
    var turns := AllTurns(history, content);
    PackIsLongest(memory, history, content);
    PackIsLongest(memory, turns, content);
    var first, again := Pack(memory, history, content).value, PackAgain(memory, history, content).value;
    LongestMeansWithin(memory, turns, first);
    LongestMeansWithin(memory, turns + [message], again);
    DroppedWithin(Room(memory), turns, message, first, again);
    FitsMeansWithin(memory, first + [message]);
  }

  /**
   Exactly when the two prompts are the same text: what is dropped in front must be what comes after. So nothing
   is the same while one more copy of the message fits, and what is dropped is as long as the message's own line.
  */
  lemma SamePromptExactlyWhen(memory: Utf8, history: seq<Turn>, content: Utf8)
    requires Fits(memory, [Turn(User, content)])
    ensures Pack(memory, history, content).Some? && PackAgain(memory, history, content).Some?
    ensures var first, again := Pack(memory, history, content).value, PackAgain(memory, history, content).value;
      var dropped, line := Dropped(first, again), Line(Turn(User, content));
      && dropped <= |first|
      && (Prompt(memory, first) == Prompt(memory, again) <==>
            Rendered(first[..dropped]) + Rendered(first[dropped..]) == Rendered(first[dropped..]) + line)
      && (Prompt(memory, first) == Prompt(memory, again) ==>
            !Fits(memory, first + [Turn(User, content)]) && |Rendered(first[..dropped])| == |line|)
  {
    var message := Turn(User, content);
    PackedAgain(memory, history, content);
    var first, again := Pack(memory, history, content).value, PackAgain(memory, history, content).value;
    var dropped := Dropped(first, again);
    RenderedConcat(first[..dropped], first[dropped..]);
    assert first[..dropped] + first[dropped..] == first;
    RenderedConcat(first[dropped..], [message]);
    RenderedOne(message);
    MiddleIsEqual(PREFIX + memory, Rendered(first), Rendered(again), SUFFIX);
    if dropped == 0 {
      assert first[..0] == [];
    }
  }

  lemma MiddleIsEqual(before: Utf8, a: Utf8, b: Utf8, after: Utf8)
    ensures before + a + after == before + b + after <==> a == b
  {
    if before + a + after == before + b + after {
      assert |a| == |b|;
      assert (before + a + after)[|before|..|before| + |a|] == a;
      assert (before + b + after)[|before|..|before| + |b|] == b;
    }
  }

  ghost predicate Copies(turns: seq<Turn>, turn: Turn) {
    forall k | 0 <= k < |turns| :: turns[k] == turn
  }

  lemma CopiesRotate(turns: seq<Turn>, turn: Turn)
    requires Copies(turns, turn) && turns != []
    ensures turns[1..] + [turn] == turns
  {
  }

  /** A suffix that shifting leaves alone is a suffix of the longer list as well. */
  lemma SuffixShifts(turns: seq<Turn>, message: Turn, suffix: seq<Turn>)
    requires 0 < |suffix| <= |turns| && suffix == turns[|turns| - |suffix|..] && suffix[1..] + [message] == suffix
    ensures (turns + [message])[|turns| + 1 - |suffix|..] == suffix
  {
    LastTurns(turns, message, |suffix| - 1);
    assert turns[|turns| - (|suffix| - 1)..] == suffix[1..];
  }

  lemma CopiesAtLeast(room: int, turns: seq<Turn>, message: Turn, first: seq<Turn>, again: seq<Turn>)
    requires LongestWithin(room, turns, first) && LongestWithin(room, turns + [message], again)
    requires first[1..] + [message] == first
    ensures |again| >= |first|
  {
    SuffixShifts(turns, message, first);
    SuffixWithin(room, turns + [message], again, |first|);
  }

  lemma CopiesStay(room: int, turns: seq<Turn>, message: Turn, first: seq<Turn>, again: seq<Turn>)
    requires LongestWithin(room, turns, first) && LongestWithin(room, turns + [message], again)
    requires Copies(first, message) && !Within(room, first + [message])
    ensures again == first
  {
    CopiesRotate(first, message);
    CopiesAtLeast(room, turns, message, first, again);
    AtLeastIfItFits(room, turns, message, first, again);
    DroppedWithin(room, turns, message, first, again);
  }

  /** A prompt of nothing but copies of the message, without room for another, is the same the next time. */
  lemma FullOfCopiesPacksAgain(memory: Utf8, history: seq<Turn>, content: Utf8)
    requires Fits(memory, [Turn(User, content)]) && Pack(memory, history, content).Some?
    requires var first := Pack(memory, history, content).value;
      Copies(first, Turn(User, content)) && !Fits(memory, first + [Turn(User, content)])
    ensures PackAgain(memory, history, content) == Pack(memory, history, content)
  {
    var message, turns := Turn(User, content), AllTurns(history, content);
    PackIsLongest(memory, history, content);
    PackIsLongest(memory, turns, content);
    var first, again := Pack(memory, history, content).value, PackAgain(memory, history, content).value;
    LongestMeansWithin(memory, turns, first);
    LongestMeansWithin(memory, turns + [message], again);
    FitsMeansWithin(memory, first + [message]);
    CopiesStay(Room(memory), turns, message, first, again);
  }

  /** No turn's text holds a line break. */
  predicate SingleLines(turns: seq<Turn>) {
    forall turn <- turns :: '\n' !in turn.content
  }

  /** The first line break of a rendering is the one that ends its first line. */
  lemma LineBreakEndsLine(turn: Turn, rest: Utf8)
    requires '\n' !in turn.content
    ensures var text, n := Line(turn) + rest, |Line(turn)|;
      && n >= 7 && text[n - 1] == '\n' && (forall k | 0 <= k < n - 1 :: text[k] != '\n')
      && text[1] == (if turn.role == User then 'u' else 'a')
      && text[..n] == Line(turn) && text[n..] == rest
  {
    forall k | 0 <= k < |Line(turn)| - 1 ensures (Line(turn) + rest)[k] != '\n' {
      if k >= |Label(turn.role)| {
        assert Line(turn)[k] == turn.content[k - |Label(turn.role)|];
      }
    }
  }

  lemma LineTellsTurn(a: Turn, b: Turn)
    requires a.role == b.role && Line(a) == Line(b)
    ensures a == b
  {
    assert Line(a)[|Label(a.role)|..|Line(a)| - 1] == a.content;
    assert Line(b)[|Label(b.role)|..|Line(b)| - 1] == b.content;
  }

  /** Among single lines, how a line starts and where it ends tell the turn. */
  lemma FirstLine(a: Turn, b: Turn, restA: Utf8, restB: Utf8)
    requires '\n' !in a.content && '\n' !in b.content
    requires Line(a) + restA == Line(b) + restB
    ensures a == b && restA == restB
  {
    LineBreakEndsLine(a, restA);
    LineBreakEndsLine(b, restB);
    LineTellsTurn(a, b);
  }

  lemma OnlyNothingIsEmpty(turns: seq<Turn>)
    ensures Rendered(turns) == "" <==> turns == []
  {
    if turns != [] {
      assert |Line(turns[0])| > 0;
    }
  }

  lemma {:induction false} RenderedTellsTurns(a: seq<Turn>, b: seq<Turn>)
    requires SingleLines(a) && SingleLines(b) && Rendered(a) == Rendered(b)
    ensures a == b
  {
    OnlyNothingIsEmpty(a);
    OnlyNothingIsEmpty(b);
    if a != [] {
      FirstLine(a[0], b[0], Rendered(a[1..]), Rendered(b[1..]));
      RenderedTellsTurns(a[1..], b[1..]);
      assert a == [a[0]] + a[1..] && b == [b[0]] + b[1..];
    }
  }

  lemma ShiftedIsCopies(first: seq<Turn>, dropped: nat, message: Turn)
    requires 1 <= dropped <= |first| && first == first[dropped..] + [message]
    ensures Copies(first, message)
  {
    assert dropped == 1;
    var k := |first|;
    while k > 0
      invariant 0 <= k <= |first| && forall j | k <= j < |first| :: first[j] == message
    {
      k := k - 1;
      assert first[k] == (first[1..] + [message])[k];
    }
  }

  lemma SameTextIsCopies(memory: Utf8, first: seq<Turn>, again: seq<Turn>, dropped: nat, message: Turn)
    requires SingleLines(first) && '\n' !in message.content && Prompt(memory, first) == Prompt(memory, again)
    requires 1 <= dropped <= |first| && again == first[dropped..] + [message]
    ensures Copies(first, message)
  {
    MiddleIsEqual(PREFIX + memory, Rendered(first), Rendered(again), SUFFIX);
    assert SingleLines(again);
    RenderedTellsTurns(first, again);
    ShiftedIsCopies(first, dropped, message);
  }

  /** For single-line turns: the two prompts are the same text exactly when the first is full of copies of the message. */
  lemma SamePromptOfLines(memory: Utf8, history: seq<Turn>, content: Utf8)
    requires Fits(memory, [Turn(User, content)])
    requires SingleLines(history) && '\n' !in content
    ensures Pack(memory, history, content).Some? && PackAgain(memory, history, content).Some?
    ensures var first, again := Pack(memory, history, content).value, PackAgain(memory, history, content).value;
      Prompt(memory, first) == Prompt(memory, again) <==>
        Copies(first, Turn(User, content)) && !Fits(memory, first + [Turn(User, content)])
  {
    PackedAgain(memory, history, content);
    SamePromptExactlyWhen(memory, history, content);
    var first, again := Pack(memory, history, content).value, PackAgain(memory, history, content).value;
    if Prompt(memory, first) == Prompt(memory, again) {
      PackedLinesAreLines(memory, history, content);
      SameTextIsCopies(memory, first, again, Dropped(first, again), Turn(User, content));
    } else if Copies(first, Turn(User, content)) && !Fits(memory, first + [Turn(User, content)]) {
      FullOfCopiesPacksAgain(memory, history, content);
    }
  }

  lemma PackedLinesAreLines(memory: Utf8, history: seq<Turn>, content: Utf8)
    requires SingleLines(history) && '\n' !in content && Pack(memory, history, content).Some?
    ensures SingleLines(Pack(memory, history, content).value)
  {
    PackIsLongest(memory, history, content);
    assert SingleLines(AllTurns(history, content));
  }

  // ----- any two prompts of single lines -----

  predicate SingleLineNotes(notes: seq<Utf8>) {
    forall note <- notes :: '\n' !in note
  }

  /** No empty line inside, and the last line is not ended. */
  ghost predicate NoEmptyLine(text: Utf8) {
    && (text != "" ==> text[|text| - 1] != '\n')
    && forall k | 0 <= k < |text| - 1 :: !(text[k] == '\n' && text[k + 1] == '\n')
  }

  lemma {:induction false} BulletsHaveNoEmptyLine(notes: seq<Utf8>)
    requires SingleLineNotes(notes)
    ensures NoEmptyLine(Bullets(notes))
  {
    if notes != [] {
      var n := |notes| - 1;
      BulletsHaveNoEmptyLine(notes[..n]);
      assert notes[n] in notes;
      OneMoreBullet(Bullets(notes[..n]), if |notes| == 1 then "- " else "\n- ", notes[n]);
    }
  }

  lemma OneMoreBullet(before: Utf8, bullet: Utf8, note: Utf8)
    requires NoEmptyLine(before) && bullet in {"- ", "\n- "} && '\n' !in note
    ensures NoEmptyLine(before + bullet + note)
  {
    var text := before + bullet + note;
    forall k | |before| < k < |text| ensures text[k] != '\n' {
      if k >= |before| + |bullet| {
        assert text[k] == note[k - |before| - |bullet|];
      } else {
        assert text[k] == bullet[k - |before|];
      }
    }
    forall k | 0 <= k < |before| ensures text[k] == before[k] {
    }
  }

  /** Where the first empty line is ends the bullets. */
  lemma FirstEmptyLine(a: Utf8, b: Utf8, restA: Utf8, restB: Utf8)
    requires NoEmptyLine(a) && NoEmptyLine(b) && a + "\n\n" + restA == b + "\n\n" + restB
    ensures a == b && restA == restB
  {
    NotShorter(a, b, restA, restB);
    NotShorter(b, a, restB, restA);
    assert (a + "\n\n" + restA)[..|a|] == a && (b + "\n\n" + restB)[..|b|] == b;
    assert (a + "\n\n" + restA)[|a| + 2..] == restA && (b + "\n\n" + restB)[|b| + 2..] == restB;
  }

  lemma NotShorter(a: Utf8, b: Utf8, restA: Utf8, restB: Utf8)
    requires NoEmptyLine(a) && NoEmptyLine(b) && a + "\n\n" + restA == b + "\n\n" + restB
    ensures |a| >= |b|
  {
    var text := b + "\n\n" + restB;
    assert text[|a|] == '\n' && text[|a| + 1] == '\n';
    assert forall k | 0 <= k < |b| :: text[k] == b[k];
  }

  lemma MemorySplits(notes: seq<Utf8>, turns: seq<Turn>)
    requires notes != []
    ensures Memory(notes) + Rendered(turns) == MEMORY_HEADER + (Bullets(notes) + "\n\n" + Rendered(turns))
  {
    Reassociate(MEMORY_HEADER, Bullets(notes), "\n\n", Rendered(turns));
  }

  lemma Reassociate(a: Utf8, b: Utf8, c: Utf8, d: Utf8)
    ensures a + b + c + d == a + (b + c + d)
  {
  }

  lemma FirstChar(text: Utf8, rest: Utf8)
    requires text != ""
    ensures (text + rest)[0] == text[0]
  {
  }

  /** Header and turns begin differently, so a text with memory is never one without. */
  lemma HeaderIsNoTurn(notes: seq<Utf8>, a: seq<Turn>, b: seq<Turn>)
    requires notes != [] && b != []
    ensures Memory(notes) + Rendered(a) != Rendered(b)
  {
    MemorySplits(notes, a);
    FirstChar(MEMORY_HEADER, Bullets(notes) + "\n\n" + Rendered(a));
    assert |MEMORY_HEADER| > 0 && MEMORY_HEADER[0] == 'S';
    FirstChar(Line(b[0]), Rendered(b[1..]));
    FirstChar(Label(b[0].role), b[0].content + "\n");
    assert Line(b[0]) == Label(b[0].role) + (b[0].content + "\n");
  }

  /** The text after the prefix tells the memory it quotes, if that is all single lines. */
  lemma TextTellsMemory(notesA: seq<Utf8>, notesB: seq<Utf8>, a: seq<Turn>, b: seq<Turn>)
    requires SingleLineNotes(notesA) && SingleLineNotes(notesB) && a != [] && b != []
    requires Memory(notesA) + Rendered(a) == Memory(notesB) + Rendered(b)
    ensures Memory(notesA) == Memory(notesB)
  {
    if notesA == [] && notesB != [] {
      HeaderIsNoTurn(notesB, b, a);
    } else if notesA != [] && notesB == [] {
      HeaderIsNoTurn(notesA, a, b);
    } else if notesA != [] {
      MemorySplits(notesA, a);
      MemorySplits(notesB, b);
      var restA, restB := Bullets(notesA) + "\n\n" + Rendered(a), Bullets(notesB) + "\n\n" + Rendered(b);
      assert (MEMORY_HEADER + restA)[|MEMORY_HEADER|..] == restA && (MEMORY_HEADER + restB)[|MEMORY_HEADER|..] == restB;
      BulletsHaveNoEmptyLine(notesA);
      BulletsHaveNoEmptyLine(notesB);
      FirstEmptyLine(Bullets(notesA), Bullets(notesB), Rendered(a), Rendered(b));
    }
  }

  /** The memory two prompts quote is the same text, or single lines in both. */
  ghost predicate TellableMemory(notesA: seq<Utf8>, notesB: seq<Utf8>) {
    Memory(notesA) == Memory(notesB) || (SingleLineNotes(notesA) && SingleLineNotes(notesB))
  }

  /** Among single lines a prompt tells its memory and its turns. */
  lemma PromptTellsTurns(notesA: seq<Utf8>, notesB: seq<Utf8>, a: seq<Turn>, b: seq<Turn>)
    requires TellableMemory(notesA, notesB) && SingleLines(a) && SingleLines(b) && a != [] && b != []
    requires Prompt(Memory(notesA), a) == Prompt(Memory(notesB), b)
    ensures Memory(notesA) == Memory(notesB) && a == b
  {
    PromptTellsText(Memory(notesA), Memory(notesB), Rendered(a), Rendered(b));
    if Memory(notesA) != Memory(notesB) {
      TextTellsMemory(notesA, notesB, a, b);
    }
    SameStart(Memory(notesA), Rendered(a), Rendered(b));
    RenderedTellsTurns(a, b);
  }

  lemma PromptTellsText(memoryA: Utf8, memoryB: Utf8, a: Utf8, b: Utf8)
    requires PREFIX + memoryA + a + SUFFIX == PREFIX + memoryB + b + SUFFIX
    ensures memoryA + a == memoryB + b
  {
    Middle(PREFIX, memoryA, a, SUFFIX);
    Middle(PREFIX, memoryB, b, SUFFIX);
    MiddleIsEqual(PREFIX, memoryA + a, memoryB + b, SUFFIX);
  }

  lemma Middle(a: Utf8, b: Utf8, c: Utf8, d: Utf8)
    ensures a + b + c + d == a + (b + c) + d
  {
  }

  lemma SameStart(start: Utf8, a: Utf8, b: Utf8)
    requires start + a == start + b
    ensures a == b
  {
    assert (start + a)[|start|..] == a && (start + b)[|start|..] == b;
  }

  lemma PackedOfLines(memory: Utf8, history: seq<Turn>, content: Utf8)
    requires Pack(memory, history, content).Some? && SingleLines(history) && '\n' !in content
    ensures SingleLines(Pack(memory, history, content).value) && Pack(memory, history, content).value != []
    ensures LongestSuffix(memory, AllTurns(history, content), Pack(memory, history, content).value)
  {
    PackIsLongest(memory, history, content);
    PackedLinesAreLines(memory, history, content);
  }

  /**
   Whatever the two conversations and messages, if all are single lines: the second prompt is the first one again
   exactly when it quotes the same memory and the turns the first showed are the longest end of the second
   conversation, with its message, that fits.
  */
  lemma SamePromptOfAnyLines(
    notesA: seq<Utf8>, historyA: seq<Turn>, contentA: Utf8, notesB: seq<Utf8>, historyB: seq<Turn>, contentB: Utf8)
    requires TellableMemory(notesA, notesB) && Pack(Memory(notesA), historyA, contentA).Some?
    requires SingleLines(historyA) && '\n' !in contentA && SingleLines(historyB) && '\n' !in contentB
    ensures var first, now := Pack(Memory(notesA), historyA, contentA).value, Pack(Memory(notesB), historyB, contentB);
      now.Some? && Prompt(Memory(notesB), now.value) == Prompt(Memory(notesA), first) <==>
        Memory(notesB) == Memory(notesA) && LongestSuffix(Memory(notesB), AllTurns(historyB, contentB), first)
  {
    var first, now := Pack(Memory(notesA), historyA, contentA).value, Pack(Memory(notesB), historyB, contentB);
    PackedOfLines(Memory(notesA), historyA, contentA);
    PackIsLongest(Memory(notesB), historyB, contentB);
    if now.Some? {
      PackedOfLines(Memory(notesB), historyB, contentB);
      if Prompt(Memory(notesB), now.value) == Prompt(Memory(notesA), first) {
        PromptTellsTurns(notesB, notesA, now.value, first);
      } else if LongestSuffix(Memory(notesB), AllTurns(historyB, contentB), first) {
        LongestSuffixIsUnique(Memory(notesB), AllTurns(historyB, contentB), first, now.value);
      }
    } else if LongestSuffix(Memory(notesB), AllTurns(historyB, contentB), first) {
      MessageFits(Memory(notesB), AllTurns(historyB, contentB), first);
    }
  }

  lemma MessageFits(memory: Utf8, turns: seq<Turn>, included: seq<Turn>)
    requires LongestSuffix(memory, turns, included)
    ensures Fits(memory, [turns[|turns| - 1]])
  {
    SuffixFits(memory, turns, included, 1);
    assert turns[|turns| - 1..] == [turns[|turns| - 1]];
  }

  /** What is packed is exactly the longest end that fits. */
  lemma PackedExactlyWhen(memory: Utf8, history: seq<Turn>, content: Utf8, included: seq<Turn>)
    ensures Pack(memory, history, content) == Some(included) <==>
      LongestSuffix(memory, AllTurns(history, content), included)
  {
    PackIsLongest(memory, history, content);
    var packed := Pack(memory, history, content);
    if LongestSuffix(memory, AllTurns(history, content), included) {
      MessageFits(memory, AllTurns(history, content), included);
      LongestSuffixIsUnique(memory, AllTurns(history, content), included, packed.value);
    }
  }

  /** The last turns of a conversation with a message. */
  function EndOf(history: seq<Turn>, content: Utf8, n: nat): (end: seq<Turn>)
    requires n <= |history| + 1
    ensures |end| == n
  {
    var turns := AllTurns(history, content);
    turns[|turns| - n..]
  }

  /** Every end of the conversation that fits makes a prompt no longer than the packed one. */
  lemma LongerEndIsPacked(memory: Utf8, history: seq<Turn>, content: Utf8, n: nat)
    requires n <= |history| + 1 && Pack(memory, history, content).Some? && Fits(memory, EndOf(history, content, n))
    ensures |Prompt(memory, EndOf(history, content, n))| <= |Prompt(memory, Pack(memory, history, content).value)|
  {
    var turns, packed := AllTurns(history, content), Pack(memory, history, content).value;
    PackIsLongest(memory, history, content);
    EndIsWithin(memory, turns, packed, n);
    EndIsNoLonger(memory, packed, n);
  }

  lemma EndIsWithin(memory: Utf8, turns: seq<Turn>, packed: seq<Turn>, n: nat)
    requires LongestSuffix(memory, turns, packed) && n <= |turns| && Fits(memory, turns[|turns| - n..])
    ensures n <= |packed| && turns[|turns| - n..] == packed[|packed| - n..]
  {
    SuffixFits(memory, turns, packed, n);
    EndOfEnd(turns, packed, n);
  }

  lemma EndIsNoLonger(memory: Utf8, turns: seq<Turn>, n: nat)
    requires n <= |turns|
    ensures |Prompt(memory, turns[|turns| - n..])| <= |Prompt(memory, turns)|
  {
    RenderedGrows(turns, |turns| - n);
  }
}
