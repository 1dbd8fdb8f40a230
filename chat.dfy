/** The App component as a state machine: its state (conversations, the
    current id, the input box, the loading flag, the accumulation buffer and
    the pending-frame slot), the browser's queue of animation-frame callbacks,
    and `sendMessage` with its read loop. React's `setState` updaters are
    applied at once; the browser and the user act only while `sendMessage`
    waits at an `await`, and those actions are given as events. */
module Chat {
  import opened Wrappers
  import opened JsText
  import opened Store
  import opened Prompt
  import opened Streaming

  /** A requested animation-frame callback: the handle `requestAnimationFrame`
      returned and the conversation id its closure captured. */
  datatype Frame = Frame(handle: nat, target: Id)

  /** How the response ends: `reader.read()` reports done, or the fetch or a
      read rejects. */
  datatype Ending = Done | Failed

  /** What may run while `sendMessage` is suspended at an `await`. */
  datatype Event =
    | FrameFires            // the browser runs its pending animation-frame callbacks
    | Select(id: Id)        // the sidebar calls `setCurrentId(id)`
    | NewChat(freshId: Id)  // the sidebar calls `createNewChat()`

  /** How a call of `sendMessage` went: returned at the guard, threw while
      reading the current conversation, or sent `prompt` for `target`. */
  datatype SendOutcome = Ignored | Crashed | Sent(target: Id, prompt: string)

  function Flatten(xss: seq<seq<Event>>): seq<Event>
  {
    if |xss| == 0 then [] else Flatten(xss[..|xss| - 1]) + xss[|xss| - 1]
  }

  /** The conversations that the events' `createNewChat` calls put in front of
      the list, most recent first; each is a fresh, empty conversation. */
  function Created(evs: seq<Event>): (cs: seq<Conversation>)
    ensures forall i :: 0 <= i < |cs| ==> cs[i] == NewConversation(cs[i].id)
  {
    if |evs| == 0 then []
    else
      var earlier := Created(evs[..|evs| - 1]);
      match evs[|evs| - 1]
      case NewChat(id) => [NewConversation(id)] + earlier
      case _ => earlier
  }

  /** The current id after the events: the id last selected or created. */
  function CurrentAfter(start: Id, evs: seq<Event>): Id
  {
    if |evs| == 0 then start
    else match evs[|evs| - 1]
      case Select(id) => id
      case NewChat(id) => id
      case FrameFires => CurrentAfter(start, evs[..|evs| - 1])
  }

  /** Frames firing never move the current id: it is the starting one or one
      that an event selected or created. */
  lemma {:induction false} CurrentAfterChosen(start: Id, evs: seq<Event>)
    ensures (forall i :: 0 <= i < |evs| ==> evs[i] == FrameFires) ==> CurrentAfter(start, evs) == start
    ensures CurrentAfter(start, evs) == start ||
      exists i :: 0 <= i < |evs| && evs[i] in {Select(CurrentAfter(start, evs)), NewChat(CurrentAfter(start, evs))}
  {
    if |evs| > 0 {
      var front := evs[..|evs| - 1];
      CurrentAfterChosen(start, front);
      if evs[|evs| - 1] == FrameFires && CurrentAfter(start, evs) != start {
        var i :| 0 <= i < |front| && front[i] in {Select(CurrentAfter(start, front)), NewChat(CurrentAfter(start, front))};
        assert evs[i] == front[i];
      }
    }
  }

  function TargetsOf(fs: seq<Frame>): set<Id>
  {
    set f | f in fs :: f.target
  }

  /** `cancelAnimationFrame(handle)`: the callbacks left once the one with
      that handle is withdrawn. */
  function Cancelled(fs: seq<Frame>, handle: nat): (r: seq<Frame>)
    ensures |r| <= |fs|
    ensures forall f :: f in r ==> f in fs && f.handle != handle
    ensures forall f :: f in fs && f.handle != handle ==> f in r
  {
    if |fs| == 0 then []
    else (if fs[0].handle == handle then [] else [fs[0]]) + Cancelled(fs[1..], handle)
  }

  /** `cs` is `created` followed by `base`, except that conversations of `base`
      whose id is in `ids` may hold in their last message a prefix of `bound`
      instead of what `base` holds there. */
  ghost predicate Tracks(cs: seq<Conversation>, created: seq<Conversation>, base: seq<Conversation>,
                         ids: set<Id>, bound: string)
  {
    && |cs| == |created| + |base|
    && cs[..|created|] == created
    && AgreeOutside(base, cs[|created|..], ids, bound)
  }

  lemma TracksStart(cs: seq<Conversation>, ids: set<Id>, bound: string)
    ensures Tracks(cs, [], cs, ids, bound)
  {
    AgreeOutsideRefl(cs, ids, bound);
    assert cs[0..] == cs;
  }

  lemma TracksNewChat(cs: seq<Conversation>, created: seq<Conversation>, base: seq<Conversation>,
                      ids: set<Id>, bound: string, c: Conversation)
    requires Tracks(cs, created, base, ids, bound)
    ensures Tracks([c] + cs, [c] + created, base, ids, bound)
  {
    assert ([c] + cs)[..|created| + 1] == [c] + cs[..|created|];
    assert ([c] + cs)[|created| + 1..] == cs[|created|..];
  }

  /** A publish of a prefix of the bound to an exempt id keeps the relation;
      the fresh conversations in front have no message for it to change. */
  lemma TracksPublish(cs: seq<Conversation>, created: seq<Conversation>, base: seq<Conversation>,
                      ids: set<Id>, bound: string, target: Id, text: string)
    requires Tracks(cs, created, base, ids, bound) && target in ids && text <= bound
    requires forall i :: 0 <= i < |created| ==> created[i].messages == []
    ensures Tracks(Publish(cs, target, text), created, base, ids, bound)
  {
    var p, n := Publish(cs, target, text), |created|;
    forall i | 0 <= i < n ensures p[i] == created[i] {
      assert cs[i] == cs[..n][i];
    }
    assert p[n..] == Publish(cs[n..], target, text);
    PublishKeepsAgreement(base, cs[n..], ids, bound, target, text);
  }

  /** The final publish settles the target: afterwards it holds exactly `text`. */
  lemma TracksSettle(cs: seq<Conversation>, created: seq<Conversation>, base: seq<Conversation>,
                     ids: set<Id>, bound: string, target: Id, text: string)
    requires Tracks(cs, created, base, ids, bound)
    requires forall i :: 0 <= i < |created| ==> created[i].messages == []
    ensures Tracks(Publish(cs, target, text), created, Publish(base, target, text), ids - {target}, bound)
  {
    var p, n := Publish(cs, target, text), |created|;
    forall i | 0 <= i < n ensures p[i] == created[i] {
      assert cs[i] == cs[..n][i];
    }
    assert p[n..] == Publish(cs[n..], target, text);
    PublishSettles(base, cs[n..], ids, bound, target, text);
  }

  lemma TracksExact(cs: seq<Conversation>, created: seq<Conversation>, base: seq<Conversation>, bound: string)
    requires Tracks(cs, created, base, {}, bound)
    ensures cs == created + base
  {
    AgreeOutsideNone(base, cs[|created|..], bound);
    assert cs == cs[..|created|] + cs[|created|..];
  }

  /** A conversation of `base` whose id is not exempt sits unchanged behind
      the created ones. */
  lemma TracksKeeps(cs: seq<Conversation>, created: seq<Conversation>, base: seq<Conversation>,
                    ids: set<Id>, bound: string, i: nat)
    requires Tracks(cs, created, base, ids, bound)
    requires i < |base| && base[i].id !in ids
    ensures cs[|created| + i] == base[i]
  {
    var rest := cs[|created|..];
    AgreeOutsidePointwise(base, rest, ids, bound);
    assert AgreesAt(base[i], rest[i], ids, bound);
  }

  /** An exempt conversation is the one in `base`, or the same with a prefix
      of the bound as the content of its last message. */
  lemma TracksExempt(cs: seq<Conversation>, created: seq<Conversation>, base: seq<Conversation>,
                     ids: set<Id>, bound: string, i: nat)
    requires Tracks(cs, created, base, ids, bound)
    requires i < |base| && base[i].id in ids
    ensures var c := cs[|created| + i];
      c == base[i] || (c == WithLastContent(base[i], LastContent(c)) && LastContent(c) <= bound)
  {
    var rest := cs[|created|..];
    AgreeOutsidePointwise(base, rest, ids, bound);
    assert AgreesAt(base[i], rest[i], ids, bound);
  }

  /** After a completed stream, the conversation the message was sent in ends
      with the user's message and an assistant message holding the whole
      buffer, whatever was selected, created or published meanwhile. */
  lemma DoneAnswersTarget(cs: seq<Conversation>, created: seq<Conversation>, before: seq<Conversation>,
                          target: Id, input: string, userId: Id, assistantId: Id, text: string,
                          ids: set<Id>, i: nat)
    requires i < |before| && before[i].id == target && target !in ids
    requires Tracks(cs, created, Publish(AppendTurn(before, target, input, userId, assistantId), target, text),
                    ids, text)
    ensures cs[|created| + i].id == target
    ensures cs[|created| + i].messages ==
      before[i].messages + [Message(userId, User, input), Message(assistantId, Assistant, text)]
  {
    var base := Publish(AppendTurn(before, target, input, userId, assistantId), target, text);
    AnsweredTurn(before, target, input, userId, assistantId, text, i);
    TracksKeeps(cs, created, base, ids, text, i);
  }

  /** After a failed stream, the conversation the message was sent in ends
      with the user's message and an assistant message holding a prefix of
      the buffer: the empty placeholder, or the text of the last frame that
      ran. */
  lemma FailedAnswersPrefix(cs: seq<Conversation>, created: seq<Conversation>, before: seq<Conversation>,
                            target: Id, input: string, userId: Id, assistantId: Id, text: string,
                            ids: set<Id>, i: nat)
    requires i < |before| && before[i].id == target && target in ids
    requires Tracks(cs, created, AppendTurn(before, target, input, userId, assistantId), ids, text)
    ensures cs[|created| + i].id == target
    ensures exists partial ::
      (partial <= text &&
       cs[|created| + i].messages ==
         before[i].messages + [Message(userId, User, input), Message(assistantId, Assistant, partial)])
  {
    var base := AppendTurn(before, target, input, userId, assistantId);
    var c := cs[|created| + i];
    TracksExempt(cs, created, base, ids, text, i);
    var partial := LastContent(c);
    var n := |before[i].messages|;
    if c == base[i] {
      assert base[i].messages == base[i].messages[..n] + [base[i].messages[n], base[i].messages[n + 1]];
      assert c.messages == before[i].messages + [Message(userId, User, input), Message(assistantId, Assistant, "")];
      assert "" <= text;
    } else {
      assert c.messages == base[i].messages[..n + 1] + [Message(assistantId, Assistant, partial)];
      assert base[i].messages[..n + 1] == before[i].messages + [Message(userId, User, input)];
    }
  }

  class ChatApp {
    var conversations: seq<Conversation>
    var currentId: Id
    var input: string
    var loading: bool
    /** `assistantBufferRef.current`. */
    var buffer: string
    /** `updateTimerRef.current`: the handle of the last requested frame, or null. */
    var timerRef: Option<nat>
    /** The browser's animation-frame callbacks that are requested and have
        neither run nor been cancelled. */
    var frames: seq<Frame>
    /** The handle the browser returns for the next request; handles are
        positive, so a stored handle is truthy. */
    var nextHandle: nat

    /** At most one callback is pending, and the slot holds its handle. */
    ghost predicate Valid()
      reads this
    {
      && nextHandle >= 1
      && |frames| <= 1
      && (|frames| == 1 ==> timerRef == Some(frames[0].handle))
      && (timerRef.Some? ==> 1 <= timerRef.value < nextHandle)
    }

    /** The component's first render: conversations restored from storage and
        the first of them selected. */
    constructor (saved: Option<string>, parseStored: string -> Option<StoredJson>, freshId: Id)
      ensures Valid()
      ensures conversations == Restore(saved, parseStored, freshId)
      ensures currentId == freshId && Find(conversations, currentId) == Some(0)
      ensures input == "" && !loading && buffer == "" && timerRef == None && frames == []
    {
      var restored := Restore(saved, parseStored, freshId);
      conversations := restored;
      currentId := restored[0].id;
      input := "";
      loading := false;
      buffer := "";
      timerRef := None;
      frames := [];
      nextHandle := 1;
    }

    /** `setCurrentId(id)`: switching conversations touches no message. */
    method SelectConversation(id: Id)
      modifies this`currentId
      ensures currentId == id
    {
      currentId := id;
    }

    /** `createNewChat()`: a fresh empty conversation goes in front and is selected. */
    method CreateNewChat(freshId: Id)
      modifies this`conversations, this`currentId
      ensures conversations == [NewConversation(freshId)] + old(conversations)
      ensures currentId == freshId
    {
      conversations := [NewConversation(freshId)] + conversations;
      currentId := freshId;
    }

    /** The browser runs the pending callback: it publishes the buffer as it
        is now into the last message of the conversation its closure captured. */
    method FireFrames()
      requires Valid()
      modifies this`conversations, this`frames
      ensures Valid() && frames == []
      ensures old(frames) == [] ==> conversations == old(conversations)
      ensures old(frames) != [] ==> conversations == Publish(old(conversations), old(frames)[0].target, buffer)
    {
      var due := frames;
      frames := [];
      if due != [] {
        conversations := Publish(conversations, due[0].target, buffer);
      }
    }

    /** App.jsx lines 142-161: cancel the frame the slot names, if any, and request a
        new one for `target`; the slot then names the only pending callback. */
    method ScheduleFrame(target: Id)
      requires Valid()
      modifies this`timerRef, this`frames, this`nextHandle
      ensures Valid()
      ensures frames == [Frame(old(nextHandle), target)]
      ensures timerRef == Some(old(nextHandle)) && nextHandle == old(nextHandle) + 1
    {
      if timerRef.Some? {
        frames := Cancelled(frames, timerRef.value);
      }
      var handle := nextHandle;
      nextHandle := nextHandle + 1;
      frames := frames + [Frame(handle, target)];
      timerRef := Some(handle);
    }

    /** App.jsx lines 128-166 for one decoded chunk: the chunk is split into its
        non-empty lines, which are then handled in order. */
    method ProcessChunk(chunk: string, target: Id, parseLine: string -> Option<Record>)
      requires Valid()
      modifies this`buffer, this`timerRef, this`frames, this`nextHandle
      ensures Valid()
      ensures buffer == old(buffer) + ChunkText(chunk, parseLine)
      ensures buffer == old(buffer) ==> frames == old(frames) && timerRef == old(timerRef)
      ensures buffer != old(buffer) ==> |frames| == 1 && frames[0].target == target
      ensures forall f :: f in frames ==> f in old(frames) || f.target == target
    {
      ProcessLines(Lines(chunk), target, parseLine);
    }

    /** Every line is handled on its own, in order. */
    method ProcessLines(lines: seq<string>, target: Id, parseLine: string -> Option<Record>)
      requires Valid()
      modifies this`buffer, this`timerRef, this`frames, this`nextHandle
      ensures Valid()
      ensures buffer == old(buffer) + LinesText(lines, parseLine)
      ensures LinesText(lines, parseLine) == "" ==> frames == old(frames) && timerRef == old(timerRef)
      ensures LinesText(lines, parseLine) != "" ==> |frames| == 1 && frames[0].target == target
    {
      for i := 0 to |lines|
        invariant Valid()
        invariant buffer == old(buffer) + LinesText(lines[..i], parseLine)
        invariant LinesText(lines[..i], parseLine) == "" ==> frames == old(frames) && timerRef == old(timerRef)
        invariant LinesText(lines[..i], parseLine) != "" ==> |frames| == 1 && frames[0].target == target
      {
        LinesTextSnoc(lines, i, parseLine);
        HandleLine(lines[i], target, parseLine);
      }
      assert lines[..|lines|] == lines;
    }

    /** App.jsx lines 136-165 for one line: a line that parses and carries a
        non-empty `response` grows the buffer and reschedules the publish
        frame; any other line changes nothing. */
    method HandleLine(line: string, target: Id, parseLine: string -> Option<Record>)
      requires Valid()
      modifies this`buffer, this`timerRef, this`frames, this`nextHandle
      ensures Valid()
      ensures buffer == old(buffer) + LineText(line, parseLine)
      ensures LineText(line, parseLine) == "" ==> frames == old(frames) && timerRef == old(timerRef)
      ensures LineText(line, parseLine) != "" ==> frames == [Frame(old(nextHandle), target)]
    {
      var parsed := parseLine(line);
      if parsed.Some? && parsed.value.response.Some? && parsed.value.response.value != "" {
        buffer := buffer + parsed.value.response.value;
        ScheduleFrame(target);
      }
    }

    /** App.jsx lines 169-187: cancel the pending frame, clear the slot, and publish
        the whole buffer once more. */
    method FinalFlush(target: Id)
      requires Valid()
      modifies this`conversations, this`timerRef, this`frames
      ensures Valid() && timerRef == None && frames == []
      ensures conversations == Publish(old(conversations), target, buffer)
    {
      if timerRef.Some? {
        frames := Cancelled(frames, timerRef.value);
        timerRef := None;
      }
      conversations := Publish(conversations, target, buffer);
    }

    /** Whatever runs during one `await`, in order. Publishes go to captured
        ids in `ids` and write the buffer, a prefix of `bound`; selections and
        new chats move the current id. */
    method RunEvents(evs: seq<Event>, ghost start: Id, ghost done: seq<Event>,
                     ghost base: seq<Conversation>, ghost ids: set<Id>, ghost bound: string)
      requires Valid() && buffer <= bound
      requires Tracks(conversations, Created(done), base, ids, bound)
      requires currentId == CurrentAfter(start, done)
      requires forall f :: f in frames ==> f.target in ids
      modifies this`conversations, this`currentId, this`frames
      ensures Valid()
      ensures Tracks(conversations, Created(done + evs), base, ids, bound)
      ensures currentId == CurrentAfter(start, done + evs)
      ensures frames == [] || frames == old(frames)
    {
      assert done + evs[..0] == done;
      for i := 0 to |evs|
        invariant Valid()
        invariant Tracks(conversations, Created(done + evs[..i]), base, ids, bound)
        invariant currentId == CurrentAfter(start, done + evs[..i])
        invariant frames == [] || frames == old(frames)
      {
        assert done + evs[..i + 1] == (done + evs[..i]) + [evs[i]];
        RunEvent(evs[i], start, done + evs[..i], base, ids, bound);
      }
      assert evs[..|evs|] == evs;
    }

    /** One event while `sendMessage` waits. */
    method RunEvent(e: Event, ghost start: Id, ghost done: seq<Event>,
                    ghost base: seq<Conversation>, ghost ids: set<Id>, ghost bound: string)
      requires Valid() && buffer <= bound
      requires Tracks(conversations, Created(done), base, ids, bound)
      requires currentId == CurrentAfter(start, done)
      requires forall f :: f in frames ==> f.target in ids
      modifies this`conversations, this`currentId, this`frames
      ensures Valid()
      ensures Tracks(conversations, Created(done + [e]), base, ids, bound)
      ensures currentId == CurrentAfter(start, done + [e])
      ensures frames == [] || frames == old(frames)
    {
      ghost var seen := done + [e];
      assert seen[..|seen| - 1] == done && seen[|seen| - 1] == e;
      match e
      case FrameFires =>
        if frames != [] {
          TracksPublish(conversations, Created(done), base, ids, bound, frames[0].target, buffer);
        }
        FireFrames();
      case Select(id) =>
        SelectConversation(id);
      case NewChat(id) =>
        TracksNewChat(conversations, Created(done), base, ids, bound, NewConversation(id));
        CreateNewChat(id);
    }

    /** One turn of the read loop: the events while `reader.read()` is
        pending, then the chunk it yields. */
    method ReadChunk(chunks: seq<string>, k: nat, evs: seq<Event>, target: Id, ghost seen: seq<Event>,
                     ghost turned: seq<Conversation>, ghost ids: set<Id>,
                     parseLine: string -> Option<Record>)
      requires Valid() && target in ids && k < |chunks|
      requires buffer == StreamText(chunks[..k], parseLine)
      requires Tracks(conversations, Created(seen), turned, ids, StreamText(chunks, parseLine))
      requires currentId == CurrentAfter(target, seen)
      requires forall f :: f in frames ==> f.target in ids
      modifies this`conversations, this`currentId, this`buffer, this`timerRef,
               this`frames, this`nextHandle
      ensures Valid()
      ensures Tracks(conversations, Created(seen + evs), turned, ids, StreamText(chunks, parseLine))
      ensures currentId == CurrentAfter(target, seen + evs)
      ensures forall f :: f in frames ==> f.target in ids
      ensures buffer == StreamText(chunks[..k + 1], parseLine)
    {
      StreamTextGrows(chunks, k, parseLine);
      RunEvents(evs, target, seen, turned, ids, StreamText(chunks, parseLine));
      ProcessChunk(chunks[k], target, parseLine);
      StreamTextPrefix(chunks, k, parseLine);
    }

    /** The read loop of App.jsx lines 124-167: chunk k is read while the
        events of `awaits[k + 1]` run. */
    method ReadChunks(target: Id, chunks: seq<string>, awaits: seq<seq<Event>>,
                      ghost turned: seq<Conversation>, ghost ids: set<Id>,
                      parseLine: string -> Option<Record>)
      requires Valid() && target in ids
      requires |awaits| == |chunks| + 2
      requires Tracks(conversations, Created(Flatten(awaits[..1])), turned, ids, StreamText(chunks, parseLine))
      requires currentId == CurrentAfter(target, Flatten(awaits[..1]))
      requires forall f :: f in frames ==> f.target in ids
      requires buffer == ""
      modifies this`conversations, this`currentId, this`buffer, this`timerRef,
               this`frames, this`nextHandle
      ensures Valid()
      ensures Tracks(conversations, Created(Flatten(awaits[..|chunks| + 1])), turned, ids,
                     StreamText(chunks, parseLine))
      ensures currentId == CurrentAfter(target, Flatten(awaits[..|chunks| + 1]))
      ensures forall f :: f in frames ==> f.target in ids
      ensures buffer == StreamText(chunks, parseLine)
    {
      ghost var seen := Flatten(awaits[..1]);
      assert chunks[..0] == [];
      var k := 0;
      while k < |chunks|
        invariant 0 <= k <= |chunks|
        invariant Valid()
        invariant seen == Flatten(awaits[..k + 1])
        invariant Tracks(conversations, Created(seen), turned, ids, StreamText(chunks, parseLine))
        invariant currentId == CurrentAfter(target, seen)
        invariant forall f :: f in frames ==> f.target in ids
        invariant buffer == StreamText(chunks[..k], parseLine)
      {
        ReadChunk(chunks, k, awaits[k + 1], target, seen, turned, ids, parseLine);
        assert awaits[..k + 2][..k + 1] == awaits[..k + 1];
        seen := seen + awaits[k + 1];
        k := k + 1;
      }
      assert chunks[..k] == chunks;
    }

    /** The end of the stream: the events while the last `reader.read()` is
        pending, then, when it reports done, the final flush of App.jsx lines
        169-187. */
    method Settle(target: Id, ending: Ending, evs: seq<Event>, ghost seen: seq<Event>,
                  ghost turned: seq<Conversation>, ghost ids: set<Id>)
      requires Valid() && target in ids
      requires Tracks(conversations, Created(seen), turned, ids, buffer)
      requires currentId == CurrentAfter(target, seen)
      requires forall f :: f in frames ==> f.target in ids
      modifies this`conversations, this`currentId, this`timerRef, this`frames
      ensures Valid()
      ensures currentId == CurrentAfter(target, seen + evs)
      ensures ending == Done ==>
        && frames == [] && timerRef == None
        && Tracks(conversations, Created(seen + evs), Publish(turned, target, buffer), ids - {target}, buffer)
      ensures ending == Failed ==> Tracks(conversations, Created(seen + evs), turned, ids, buffer)
    {
      RunEvents(evs, target, seen, turned, ids, buffer);
      if ending == Done {
        TracksSettle(conversations, Created(seen + evs), turned, ids, buffer, target, buffer);
        FinalFlush(target);
      }
    }

    /** App.jsx lines 107-198 once the turn is appended: run the stream for
        `target`, then flush (on done) and clear `loading` (always).
        `awaits[0]` runs while the fetch is pending and `awaits[k + 1]` while
        the read that yields chunk k (or, for k = |chunks|, the end) is. Every
        publish writes the buffer as it then is, a prefix of the final one. */
    method Stream(target: Id, chunks: seq<string>, ending: Ending,
                  awaits: seq<seq<Event>>, parseLine: string -> Option<Record>)
      requires Valid()
      requires |awaits| == |chunks| + 2
      requires buffer == "" && currentId == target
      modifies this`conversations, this`currentId, this`loading, this`buffer,
               this`timerRef, this`frames, this`nextHandle
      ensures Valid()
      ensures !loading && buffer == StreamText(chunks, parseLine)
      ensures currentId == CurrentAfter(target, Flatten(awaits))
      ensures ending == Done ==>
        && frames == [] && timerRef == None
        && Tracks(conversations, Created(Flatten(awaits)), Publish(old(conversations), target, buffer),
                  TargetsOf(old(frames)) - {target}, buffer)
      ensures ending == Failed ==>
        Tracks(conversations, Created(Flatten(awaits)), old(conversations), {target} + TargetsOf(old(frames)),
               buffer)
    {
      ghost var turned := conversations;
      ghost var ids := {target} + TargetsOf(frames);
      ghost var bound := StreamText(chunks, parseLine);
      TracksStart(turned, ids, bound);
      // the await of `fetch`
      RunEvents(awaits[0], target, [], turned, ids, bound);
      assert awaits[..1][..0] == [];
      assert [] + awaits[0] == Flatten(awaits[..1]);
      ReadChunks(target, chunks, awaits, turned, ids, parseLine);
      // the await of the last `reader.read()`, which reports done or rejects
      ghost var seen := Flatten(awaits[..|chunks| + 1]);
      Settle(target, ending, awaits[|chunks| + 1], seen, turned, ids);
      assert awaits[..|chunks| + 2][..|chunks| + 1] == awaits[..|chunks| + 1];
      assert awaits[..|chunks| + 2] == awaits;
      assert ids - {target} == TargetsOf(old(frames)) - {target};
      // finally
      loading := false;
    }

    /** `sendMessage()`: the guard, then the turn. The ids of the two new
        messages are passed in; the response is given as its decoded chunks,
        how it ends, and the events that run at each `await`. */
    method SendMessage(userId: Id, assistantId: Id, chunks: seq<string>, ending: Ending,
                       awaits: seq<seq<Event>>, parseLine: string -> Option<Record>)
      returns (outcome: SendOutcome)
      requires Valid()
      requires |awaits| == |chunks| + 2
      modifies this`conversations, this`currentId, this`input, this`loading, this`buffer,
               this`timerRef, this`frames, this`nextHandle
      ensures Valid()
      ensures outcome == Ignored <==> Trim(old(input)) == "" || old(loading)
      ensures outcome == Ignored ==>
        && conversations == old(conversations) && currentId == old(currentId)
        && input == old(input) && loading == old(loading) && buffer == old(buffer)
        && frames == old(frames) && timerRef == old(timerRef)
      ensures outcome != Ignored ==>
        TurnTaken(old(conversations), old(currentId), old(input), old(frames), old(timerRef),
                  userId, assistantId, chunks, ending, awaits, parseLine, outcome)
    {
      if Trim(input) == "" || loading {
        return Ignored;
      }
      outcome := TakeTurn(userId, assistantId, chunks, ending, awaits, parseLine);
    }

    /** The state a send that passed the guard leaves, given the state it
        started from (`before`, `target`, `text`, `pending`, `slot`):
        - `Crashed` exactly when no conversation has the current id; the input
          is cleared, `loading` stays set and no conversation changes;
        - otherwise `Sent`, with the prompt built from the conversation as
          rendered plus the new user message, `loading` cleared, the buffer
          holding what the chunks add, and the conversations tracking the
          appended turn (published once more on `Done`). */
    ghost predicate TurnTaken(before: seq<Conversation>, target: Id, text: string,
                              pending: seq<Frame>, slot: Option<nat>,
                              userId: Id, assistantId: Id, chunks: seq<string>, ending: Ending,
                              awaits: seq<seq<Event>>, parseLine: string -> Option<Record>,
                              outcome: SendOutcome)
      reads this
    {
      && (outcome == Crashed <==> Find(before, target).None?)
      && (outcome == Crashed ==>
            && conversations == before && currentId == target
            && input == "" && loading && buffer == ""
            && frames == pending && timerRef == slot)
      && (outcome.Sent? ==>
            var turned := AppendTurn(before, target, text, userId, assistantId);
            && Find(before, target).Some?
            && outcome.target == target
            && outcome.prompt == BuildPrompt(before[Find(before, target).value].messages
                                             + [Message(userId, User, text)])
            && input == "" && !loading && buffer == StreamText(chunks, parseLine)
            && currentId == CurrentAfter(target, Flatten(awaits))
            && (ending == Done ==>
                  && frames == [] && timerRef == None
                  && Tracks(conversations, Created(Flatten(awaits)), Publish(turned, target, buffer),
                            TargetsOf(pending) - {target}, buffer))
            && (ending == Failed ==>
                  Tracks(conversations, Created(Flatten(awaits)), turned, {target} + TargetsOf(pending),
                         buffer)))
    }

    /** App.jsx lines 72-198: the new turn, the prompt, and the stream. */
    method TakeTurn(userId: Id, assistantId: Id, chunks: seq<string>, ending: Ending,
                    awaits: seq<seq<Event>>, parseLine: string -> Option<Record>)
      returns (outcome: SendOutcome)
      requires Valid()
      requires |awaits| == |chunks| + 2
      modifies this`conversations, this`currentId, this`input, this`loading, this`buffer,
               this`timerRef, this`frames, this`nextHandle
      ensures Valid() && outcome != Ignored
      ensures TurnTaken(old(conversations), old(currentId), old(input), old(frames), old(timerRef),
                        userId, assistantId, chunks, ending, awaits, parseLine, outcome)
    {
      var text, target, before := input, currentId, conversations;
      // `currentConv`, as of the render that created this call
      var current := Find(before, target);
      conversations := AppendTurn(conversations, target, text, userId, assistantId);
      input := "";
      loading := true;
      buffer := "";
      if current.None? {
        // `currentConv.messages` throws before the `try`
        AppendTurnToMissing(before, target, text, userId, assistantId);
        return Crashed;
      }
      var prompt := BuildPrompt(before[current.value].messages + [Message(userId, User, text)]);
      Stream(target, chunks, ending, awaits, parseLine);
      outcome := Sent(target, prompt);
    }
  }
}
