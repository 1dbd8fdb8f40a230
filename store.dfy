/** The conversation store of the chat client: conversations and messages as
    values, and the pure updaters that the client applies to the list of
    conversations (`prev => ...`). Identifiers are opaque strings supplied by
    the caller in place of `crypto.randomUUID()`. */
module Store {
  import opened Wrappers

  type Id = string

  datatype Role = User | Assistant

  datatype Message = Message(id: Id, role: Role, content: string)

  datatype Conversation = Conversation(id: Id, title: string, messages: seq<Message>)

  /** What `JSON.parse` makes of the stored slot: an array of conversations,
      or any other JSON value. */
  datatype StoredJson = JsonArray(items: seq<Conversation>) | OtherJson

  const DefaultTitle: string := "New Chat"

  /** How many leading characters of the first prompt become the title. */
  const TitleLength: nat := 20

  /** `newConversation()`, with the fresh identifier passed in. */
  function NewConversation(id: Id): Conversation
  {
    Conversation(id, DefaultTitle, [])
  }

  /** `conversations.find(c => c.id === id)`, as the position of the first match. */
  function Find(cs: seq<Conversation>, id: Id): (r: Option<nat>)
    ensures r.Some? ==> r.value < |cs| && cs[r.value].id == id
    ensures r.Some? ==> forall j :: 0 <= j < r.value ==> cs[j].id != id
    ensures r.None? <==> forall j :: 0 <= j < |cs| ==> cs[j].id != id
  {
    if |cs| == 0 then None
    else if cs[0].id == id then Some(0)
    else match Find(cs[1..], id)
      case None => None
      case Some(k) => Some(k + 1)
  }

  // ---------------------------------------------------------------------------
  // Appending a turn

  /** `input.slice(0, 20)`: the title taken from the untrimmed first prompt. */
  function TitleFor(input: string): (t: string)
    ensures |t| == (if |input| < TitleLength then |input| else TitleLength)
    ensures t <= input
  {
    input[..if |input| < TitleLength then |input| else TitleLength]
  }

  function AppendTurnTo(c: Conversation, input: string, userId: Id, assistantId: Id): Conversation
  {
    c.(title := if |c.messages| == 0 then TitleFor(input) else c.title,
       messages := c.messages + [Message(userId, User, input), Message(assistantId, Assistant, "")])
  }

  /** The updater that records a new turn: every conversation whose id is
      `currentId` gains the user message and an empty assistant placeholder,
      and takes its title from the prompt when it had no messages before. */
  function AppendTurn(cs: seq<Conversation>, currentId: Id, input: string, userId: Id, assistantId: Id)
    : (r: seq<Conversation>)
    ensures |r| == |cs|
    ensures forall i :: 0 <= i < |cs| && cs[i].id != currentId ==> r[i] == cs[i]
    ensures forall i :: 0 <= i < |cs| && cs[i].id == currentId ==>
      var n := |cs[i].messages|;
      && r[i].id == currentId
      && |r[i].messages| == n + 2
      && r[i].messages[..n] == cs[i].messages
      && r[i].messages[n] == Message(userId, User, input)
      && r[i].messages[n + 1] == Message(assistantId, Assistant, "")
      && r[i].title == (if n == 0 then TitleFor(input) else cs[i].title)
  {
    seq(|cs|, i requires 0 <= i < |cs| =>
      if cs[i].id == currentId then AppendTurnTo(cs[i], input, userId, assistantId) else cs[i])
  }

  /** A send addressed to an id that no conversation has changes nothing. */
  lemma AppendTurnToMissing(cs: seq<Conversation>, currentId: Id, input: string, userId: Id, assistantId: Id)
    requires forall i :: 0 <= i < |cs| ==> cs[i].id != currentId
    ensures AppendTurn(cs, currentId, input, userId, assistantId) == cs
  {
  }

  /** The first send into a conversation just created titles it from the
      input and gives it exactly the user message and the empty placeholder. */
  lemma FirstSendTitles(id: Id, cs: seq<Conversation>, input: string, userId: Id, assistantId: Id)
    ensures AppendTurn([NewConversation(id)] + cs, id, input, userId, assistantId)[0] ==
      Conversation(id, TitleFor(input), [Message(userId, User, input), Message(assistantId, Assistant, "")])
  {
    var c := AppendTurn([NewConversation(id)] + cs, id, input, userId, assistantId)[0];
    assert ([NewConversation(id)] + cs)[0] == NewConversation(id);
    assert c.messages == [Message(userId, User, input), Message(assistantId, Assistant, "")];
  }

  /** Only the first send into a conversation sets its title; a second send
      keeps the title the first one gave. */
  lemma SecondSendKeepsTitle(cs: seq<Conversation>, currentId: Id,
                             input1: string, user1: Id, assistant1: Id,
                             input2: string, user2: Id, assistant2: Id, i: nat)
    requires i < |cs| && cs[i].id == currentId
    ensures
      var once := AppendTurn(cs, currentId, input1, user1, assistant1);
      var twice := AppendTurn(once, currentId, input2, user2, assistant2);
      && twice[i].title == once[i].title
      && once[i].title == (if |cs[i].messages| == 0 then TitleFor(input1) else cs[i].title)
  {
  }

  /** Messages alternate user, assistant, user, ... and come in whole turns. */
  ghost predicate Paired(c: Conversation)
  {
    && |c.messages| % 2 == 0
    && forall j :: 0 <= j < |c.messages| ==> c.messages[j].role == (if j % 2 == 0 then User else Assistant)
  }

  /** Appending a turn keeps every conversation made of whole user/assistant turns. */
  lemma AppendTurnKeepsPaired(cs: seq<Conversation>, currentId: Id, input: string, userId: Id, assistantId: Id)
    requires forall i :: 0 <= i < |cs| ==> Paired(cs[i])
    ensures forall i :: 0 <= i < |cs| ==> Paired(AppendTurn(cs, currentId, input, userId, assistantId)[i])
  {
    var r := AppendTurn(cs, currentId, input, userId, assistantId);
    forall i | 0 <= i < |cs| ensures Paired(r[i]) {
      if cs[i].id == currentId {
        var n := |cs[i].messages|;
        forall j | 0 <= j < n + 2
          ensures r[i].messages[j].role == (if j % 2 == 0 then User else Assistant)
        {
          if j < n {
            assert r[i].messages[j] == r[i].messages[..n][j];
          }
        }
      }
    }
  }

  // ---------------------------------------------------------------------------
  // Publishing streamed text

  /** `c` with the content of its last message, by position, replaced by
      `text`; a conversation without messages is left as it is. */
  function WithLastContent(c: Conversation, text: string): Conversation
  {
    c.(messages := seq(|c.messages|, j requires 0 <= j < |c.messages| =>
      if j == |c.messages| - 1 then c.messages[j].(content := text) else c.messages[j]))
  }

  /** The content of the last message, or "" when there is none. */
  function LastContent(c: Conversation): string
  {
    if |c.messages| == 0 then "" else c.messages[|c.messages| - 1].content
  }

  /** The publish updater: the last message, by position, of every conversation
      whose id is `target` gets `text` as its content; nothing else changes. */
  function Publish(cs: seq<Conversation>, target: Id, text: string): (r: seq<Conversation>)
    ensures |r| == |cs|
    ensures forall i :: 0 <= i < |cs| && cs[i].id != target ==> r[i] == cs[i]
    ensures forall i :: 0 <= i < |cs| && cs[i].id == target ==>
      var n := |cs[i].messages|;
      && r[i].id == cs[i].id && r[i].title == cs[i].title
      && |r[i].messages| == n
      && (forall j :: 0 <= j < n - 1 ==> r[i].messages[j] == cs[i].messages[j])
      && (n > 0 ==> r[i].messages[n - 1] == cs[i].messages[n - 1].(content := text))
    ensures (forall i :: 0 <= i < |cs| ==> cs[i].id != target) ==> r == cs
  {
    seq(|cs|, i requires 0 <= i < |cs| =>
      if cs[i].id == target then WithLastContent(cs[i], text) else cs[i])
  }

  lemma WithLastContentTwice(c: Conversation, s: string, t: string)
    ensures WithLastContent(WithLastContent(c, s), t) == WithLastContent(c, t)
  {
    assert WithLastContent(WithLastContent(c, s), t).messages == WithLastContent(c, t).messages;
  }

  lemma LastContentAfter(c: Conversation, s: string)
    ensures LastContent(WithLastContent(c, s)) == if |c.messages| == 0 then "" else s
  {
  }

  /** A later publish overwrites an earlier one: the text published last is the
      one that stays, whatever was published before. */
  lemma {:induction false} PublishOverwrites(cs: seq<Conversation>, target: Id, s: string, t: string)
    ensures Publish(Publish(cs, target, s), target, t) == Publish(cs, target, t)
  {
    var once := Publish(cs, target, s);
    forall i | 0 <= i < |cs|
      ensures Publish(once, target, t)[i] == Publish(cs, target, t)[i]
    {
      if cs[i].id == target {
        WithLastContentTwice(cs[i], s, t);
      }
    }
  }

  /** A turn appended and then answered: the conversation ends with the user's
      message followed by the assistant's message holding the published text. */
  lemma AnsweredTurn(cs: seq<Conversation>, currentId: Id, input: string, userId: Id, assistantId: Id,
                     text: string, i: nat)
    requires i < |cs| && cs[i].id == currentId
    ensures
      var r := Publish(AppendTurn(cs, currentId, input, userId, assistantId), currentId, text);
      r[i].messages == cs[i].messages + [Message(userId, User, input), Message(assistantId, Assistant, text)]
  {
    var appended := AppendTurn(cs, currentId, input, userId, assistantId);
    var r := Publish(appended, currentId, text);
    var n := |cs[i].messages|;
    forall j | 0 <= j < n ensures r[i].messages[j] == cs[i].messages[j] {
      assert appended[i].messages[j] == appended[i].messages[..n][j];
    }
  }

  /** Publishing keeps every conversation made of whole user/assistant turns. */
  lemma PublishKeepsPaired(cs: seq<Conversation>, target: Id, text: string)
    requires forall i :: 0 <= i < |cs| ==> Paired(cs[i])
    ensures forall i :: 0 <= i < |cs| ==> Paired(Publish(cs, target, text)[i])
  {
  }

  /** `b` is `a` with perhaps another content in its last message. */
  ghost predicate SameButLastContent(a: Conversation, b: Conversation)
  {
    b == WithLastContent(a, LastContent(b))
  }

  /** `y` is `x`, except that when `x`'s id is in `ids` its last message may
      hold another content, and that content is then a prefix of `bound`. */
  ghost predicate AgreesAt(x: Conversation, y: Conversation, ids: set<Id>, bound: string)
  {
    if x.id in ids then y == x || (SameButLastContent(x, y) && LastContent(y) <= bound) else y == x
  }

  /** `ys` is `xs` except that the conversations whose id is in `ids` may hold
      in their last message a prefix of `bound`; stated element by element
      from the front. */
  ghost predicate AgreeOutside(xs: seq<Conversation>, ys: seq<Conversation>, ids: set<Id>, bound: string)
  {
    && |xs| == |ys|
    && (|xs| > 0 ==> AgreesAt(xs[0], ys[0], ids, bound) && AgreeOutside(xs[1..], ys[1..], ids, bound))
  }

  /** Agreement holds exactly when it holds at every position. */
  lemma {:induction false} AgreeOutsidePointwise(xs: seq<Conversation>, ys: seq<Conversation>, ids: set<Id>,
                                                 bound: string)
    ensures AgreeOutside(xs, ys, ids, bound) <==>
      |xs| == |ys| && forall i :: 0 <= i < |xs| ==> AgreesAt(xs[i], ys[i], ids, bound)
  {
    if |xs| > 0 && |xs| == |ys| {
      AgreeOutsidePointwise(xs[1..], ys[1..], ids, bound);
      if forall i :: 0 <= i < |xs| ==> AgreesAt(xs[i], ys[i], ids, bound) {
        forall i | 0 <= i < |xs| - 1 ensures AgreesAt(xs[1..][i], ys[1..][i], ids, bound) {
          assert AgreesAt(xs[i + 1], ys[i + 1], ids, bound);
        }
      }
      if AgreeOutside(xs, ys, ids, bound) {
        forall i | 0 <= i < |xs| ensures AgreesAt(xs[i], ys[i], ids, bound) {
          if i > 0 {
            assert AgreesAt(xs[1..][i - 1], ys[1..][i - 1], ids, bound);
          }
        }
      }
    }
  }

  lemma AgreeOutsideRefl(xs: seq<Conversation>, ids: set<Id>, bound: string)
    ensures AgreeOutside(xs, xs, ids, bound)
  {
    AgreeOutsidePointwise(xs, xs, ids, bound);
  }

  /** With no id exempt, agreement is equality. */
  lemma AgreeOutsideNone(xs: seq<Conversation>, ys: seq<Conversation>, bound: string)
    requires AgreeOutside(xs, ys, {}, bound)
    ensures xs == ys
  {
    AgreeOutsidePointwise(xs, ys, {}, bound);
    forall i | 0 <= i < |xs| ensures xs[i] == ys[i] {
      assert AgreesAt(xs[i], ys[i], {}, bound);
    }
  }

  /** A publish of a prefix of the bound to an exempt id keeps the agreement. */
  lemma PublishKeepsAgreement(xs: seq<Conversation>, ys: seq<Conversation>, ids: set<Id>, bound: string,
                              target: Id, text: string)
    requires AgreeOutside(xs, ys, ids, bound) && target in ids && text <= bound
    ensures AgreeOutside(xs, Publish(ys, target, text), ids, bound)
  {
    AgreeOutsidePointwise(xs, ys, ids, bound);
    var zs := Publish(ys, target, text);
    forall i | 0 <= i < |xs| ensures AgreesAt(xs[i], zs[i], ids, bound) {
      assert AgreesAt(xs[i], ys[i], ids, bound);
      if xs[i].id in ids && ys[i].id == target {
        WithLastContentTwice(xs[i], LastContent(ys[i]), text);
        assert zs[i] == WithLastContent(xs[i], text);
        LastContentAfter(xs[i], text);
        if |xs[i].messages| == 0 {
          assert WithLastContent(xs[i], text).messages == xs[i].messages;
        }
      }
    }
    AgreeOutsidePointwise(xs, zs, ids, bound);
  }

  /** Publishing the same text to the same target on both sides removes the
      target from the exempt ids: whatever the target held, it now holds `text`. */
  lemma PublishSettles(xs: seq<Conversation>, ys: seq<Conversation>, ids: set<Id>, bound: string,
                       target: Id, text: string)
    requires AgreeOutside(xs, ys, ids, bound)
    ensures AgreeOutside(Publish(xs, target, text), Publish(ys, target, text), ids - {target}, bound)
  {
    AgreeOutsidePointwise(xs, ys, ids, bound);
    var px, py := Publish(xs, target, text), Publish(ys, target, text);
    forall i | 0 <= i < |xs| ensures AgreesAt(px[i], py[i], ids - {target}, bound) {
      assert AgreesAt(xs[i], ys[i], ids, bound);
      if xs[i].id == target && ys[i] != xs[i] {
        WithLastContentTwice(xs[i], LastContent(ys[i]), text);
      }
    }
    AgreeOutsidePointwise(px, py, ids - {target}, bound);
  }

  // ---------------------------------------------------------------------------
  // Persistence

  /** `conversations.filter(c => c.messages.length > 0)`: what is saved. */
  function SaveFilter(cs: seq<Conversation>): (r: seq<Conversation>)
    ensures |r| <= |cs|
    ensures forall i :: 0 <= i < |r| ==> |r[i].messages| > 0
    ensures forall c :: c in r <==> c in cs && |c.messages| > 0
  {
    if |cs| == 0 then []
    else (if |cs[0].messages| > 0 then [cs[0]] else []) + SaveFilter(cs[1..])
  }

  /** Saving keeps relative order: the filter of a concatenation is the
      concatenation of the filters. */
  lemma {:induction false} SaveFilterAppend(a: seq<Conversation>, b: seq<Conversation>)
    ensures SaveFilter(a + b) == SaveFilter(a) + SaveFilter(b)
  {
    if |a| > 0 {
      assert (a + b)[1..] == a[1..] + b;
      SaveFilterAppend(a[1..], b);
    } else {
      assert a + b == b;
    }
  }

  /** A list in which every conversation has messages is saved as it is. */
  lemma {:induction false} SaveFilterKeepsNonEmpty(cs: seq<Conversation>)
    requires forall i :: 0 <= i < |cs| ==> |cs[i].messages| > 0
    ensures SaveFilter(cs) == cs
  {
    if |cs| > 0 {
      SaveFilterKeepsNonEmpty(cs[1..]);
    }
  }

  /** Saving what was saved changes nothing. */
  lemma SaveFilterIdempotent(cs: seq<Conversation>)
    ensures SaveFilter(SaveFilter(cs)) == SaveFilter(cs)
  {
    SaveFilterKeepsNonEmpty(SaveFilter(cs));
  }

  /** A fresh conversation, and a list of them, is never saved. */
  lemma {:induction false} FreshConversationsNotSaved(cs: seq<Conversation>)
    requires forall i :: 0 <= i < |cs| ==> cs[i].messages == []
    ensures SaveFilter(cs) == []
  {
    if |cs| > 0 {
      FreshConversationsNotSaved(cs[1..]);
    }
  }

  /** `loadConversationsFromStorage()`: a fresh conversation, followed by the
      stored array when the slot holds a non-empty string that parses to a
      non-empty array; a fresh conversation alone when the slot is missing or
      empty, the text does not parse, or it parses to anything else. */
  function Restore(saved: Option<string>, parse: string -> Option<StoredJson>, freshId: Id)
    : (r: seq<Conversation>)
    ensures |r| >= 1 && r[0] == NewConversation(freshId)
  {
    var history :=
      if saved.Some? && saved.value != "" then
        match parse(saved.value)
        case Some(JsonArray(items)) => if |items| > 0 then items else []
        case _ => []
      else [];
    [NewConversation(freshId)] + history
  }

  /** Missing, empty, unparseable or non-array storage gives exactly one fresh conversation. */
  lemma RestoreWithoutHistory(saved: Option<string>, parse: string -> Option<StoredJson>, freshId: Id)
    requires || saved.None? || saved.value == ""
             || parse(saved.value).None? || parse(saved.value).value.OtherJson?
             || parse(saved.value).value.items == []
    ensures Restore(saved, parse, freshId) == [NewConversation(freshId)]
  {
  }

  /** Saving then restoring gives a fresh empty conversation followed by exactly
      the conversations that had messages, in their original order, given that
      the serializer's text is non-empty and parses back to the saved array. */
  lemma SaveThenRestore(cs: seq<Conversation>, stringify: seq<Conversation> -> string,
                        parse: string -> Option<StoredJson>, freshId: Id)
    requires stringify(SaveFilter(cs)) != ""
    requires parse(stringify(SaveFilter(cs))) == Some(JsonArray(SaveFilter(cs)))
    ensures
      var r := Restore(Some(stringify(SaveFilter(cs))), parse, freshId);
      && r == [NewConversation(freshId)] + SaveFilter(cs)
      && (forall c :: c in r[1..] <==> c in cs && |c.messages| > 0)
  {
    var r := Restore(Some(stringify(SaveFilter(cs))), parse, freshId);
    assert r[1..] == SaveFilter(cs);
  }

  /** Saving the restored list saves exactly the restored history again: the
      fresh conversation put in front is never written back. */
  lemma RestoreThenSave(saved: Option<string>, parse: string -> Option<StoredJson>, freshId: Id)
    ensures SaveFilter(Restore(saved, parse, freshId)) == SaveFilter(Restore(saved, parse, freshId)[1..])
  {
    var r := Restore(saved, parse, freshId);
    assert r == [r[0]] + r[1..];
    SaveFilterAppend([r[0]], r[1..]);
    FreshConversationsNotSaved([r[0]]);
  }
}
