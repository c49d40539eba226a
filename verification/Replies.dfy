/** Replies of the model service: stored form, replay, and assembly from a stream of deltas. */
module Replies {
  import opened Basics
  import opened Positions
  import opened Conversation

  /** Who answered, under which prefix, and how tool names are read back. */
  datatype Source = Source(modelId: string, prefix: string, restore: string -> string)

  /** What one block of a reply is stored as: empty texts are not stored. */
  function PartsOf(b: Block, from: Source): seq<Part> {
    match b
    case TextBlock(text) => if text == "" then [] else [Text(text)]
    case ToolUseBlock(id, name, input) => [ToolUse(id, from.restore(name), input)]
    case RedactedBlock(data) => [Reasoning("", from.modelId, data, "", from.prefix)]
    case ThoughtBlock(thought, signature) => [Reasoning(thought, from.modelId, "", signature, from.prefix)]
    case ResultBlock(_, _, _) => []
  }

  function ContentFrom(blocks: seq<Block>, from: Source): seq<Part> {
    if blocks == [] then [] else ContentFrom(blocks[..|blocks| - 1], from) + PartsOf(blocks[|blocks| - 1], from)
  }

  method ContentFromConverse(blocks: seq<Block>, from: Source) returns (content: seq<Part>)
    ensures content == ContentFrom(blocks, from)
  {
    content := [];
    for i := 0 to |blocks|
      invariant content == ContentFrom(blocks[..i], from)
    {
      assert blocks[..i + 1][..i] == blocks[..i];
      content := content + PartsOf(blocks[i], from);
    }
    assert blocks[..|blocks|] == blocks;
  }

  /** What is stored of each block of a reply: thoughts bound to the model and the prefix they came under. */
  lemma BlockIsStored(b: Block, from: Source)
    ensures
      var stored := ContentFrom([b], from);
      match b
      case TextBlock(text) => stored == if text == "" then [] else [Text(text)]
      case ToolUseBlock(id, name, input) => stored == [ToolUse(id, from.restore(name), input)]
      case ThoughtBlock(thought, signature) => stored == [Reasoning(thought, from.modelId, "", signature, from.prefix)]
      case RedactedBlock(data) => stored == [Reasoning("", from.modelId, data, "", from.prefix)]
      case ResultBlock(_, _, _) => stored == []
  {
    assert [b][..0] == [] && ContentFrom([], from) == [];
    assert ContentFrom([b], from) == [] + PartsOf(b, from);
  }

  lemma {:induction false} ContentSplits(a: seq<Block>, b: seq<Block>, from: Source)
    ensures ContentFrom(a + b, from) == ContentFrom(a, from) + ContentFrom(b, from)
  {
    hide PartsOf;
    if b == [] {
      assert a + b == a;
    } else {
      assert (a + b)[..|a + b| - 1] == a + b[..|b| - 1];
      ContentSplits(a, b[..|b| - 1], from);
    }
  }

  // ---- A reply replayed ----------------------------------------------------------------------

  /** The blocks of a reply that storing keeps: all but results and empty texts. */
  function Kept(blocks: seq<Block>): seq<Block> {
    if blocks == [] then []
    else
      var b := blocks[|blocks| - 1];
      Kept(blocks[..|blocks| - 1]) + if b.ResultBlock? || b == TextBlock("") then [] else [b]
  }

  /** Replay is verbatim for one block unless it is an encrypted thought with no data, which comes back as an empty thought. */
  lemma BlockReplaysIff(b: Block, from: Source, t: Target)
    requires t.modelId == from.modelId && t.prefix == from.prefix
    requires b.ToolUseBlock? ==> t.rename(from.restore(b.name)) == b.name
    requires !b.ResultBlock? && b != TextBlock("")
    ensures BlocksOf(PartsOf(b, from), false, t) == [b] <==> b != RedactedBlock("")
  {
    var parts := PartsOf(b, from);
    assert parts[..0] == [] && parts == [parts[0]];
    assert BlocksOf([], false, t) == [];
    assert BlocksOf(parts, false, t) == [] + BlockOf(parts[0], t);
    assert BlocksOf(parts, false, t) == BlockOf(parts[0], t);
    assert b == RedactedBlock("") ==> BlockOf(parts[0], t) == [ThoughtBlock("", "")];
  }

  lemma {:induction false} BlocksOfSplit(a: seq<Part>, b: seq<Part>, t: Target)
    ensures BlocksOf(a + b, false, t) == BlocksOf(a, false, t) + BlocksOf(b, false, t)
  {
    hide BlockOf;
    if b == [] {
      assert a + b == a;
    } else {
      var init := b[..|b| - 1];
      assert (a + b)[..|a + b| - 1] == a + init;
      BlocksOfSplit(a, init, t);
    }
  }

  /** Storing a reply and replaying it to the model it came from sends the same blocks, thoughts included. */
  lemma {:induction false} RepliesReplayVerbatim(blocks: seq<Block>, from: Source, t: Target)
    requires t.modelId == from.modelId && t.prefix == from.prefix
    requires forall b :: b in blocks && b.ToolUseBlock? ==> t.rename(from.restore(b.name)) == b.name
    requires RedactedBlock("") !in blocks
    ensures BlocksOf(ContentFrom(blocks, from), false, t) == Kept(blocks)
  {
    if blocks != [] {
      var init, b := blocks[..|blocks| - 1], blocks[|blocks| - 1];
      assert b in blocks;
      RepliesReplayVerbatim(init, from, t);
      BlocksOfSplit(ContentFrom(init, from), PartsOf(b, from), t);
      hide BlocksOf;
      if b.ResultBlock? || b == TextBlock("") {
        BlocksOfNothing(t);
      } else {
        BlockReplaysIff(b, from, t);
      }
    }
  }

  lemma BlocksOfNothing(t: Target)
    ensures BlocksOf([], false, t) == []
  {
  }

  // ---- Streaming -----------------------------------------------------------------------------

  /** Stream events, each for the block at an index. A thought delta may carry any of its three fields. */
  datatype Event =
    | Start(at: nat, id: string, name: string)
    | TextDelta(at: nat, text: string)
    | ToolDelta(at: nat, json: string)
    | ThoughtDelta(at: nat, thought: Option<string>, signature: Option<string>, data: Option<string>)

  datatype Call = Call(id: string, name: string, json: string)
  datatype Thought = Thought(text: string, signature: string, data: Option<string>)

  /** A block while it is being received. */
  datatype Partial = Partial(text: Option<string>, tool: Option<Call>, thought: Option<Thought>)

  const BLANK := Partial(None, None, None)

  function Or<T>(o: Option<T>, default: T): T {
    if o.Some? then o.value else default
  }

  function Receive(b: Option<Partial>, ev: Event): Partial {
    var p := Or(b, BLANK);
    match ev
    case Start(_, id, name) => Partial(None, Some(Call(id, name, "")), None)
    case TextDelta(_, text) => p.(text := Some(Or(p.text, "") + text))
    case ToolDelta(_, json) => if p.tool.Some? then p.(tool := Some(p.tool.value.(json := p.tool.value.json + json))) else p
    case ThoughtDelta(_, text, signature, data) =>
      var th := Or(p.thought, Thought("", "", None));
      p.(thought := Some(Thought(th.text + Or(text, ""), Or(signature, th.signature), if data.Some? then data else th.data)))
  }

  function Lookup(blocks: map<nat, Partial>, k: nat): Option<Partial> {
    if k in blocks then Some(blocks[k]) else None
  }

  function Fold(events: seq<Event>): map<nat, Partial> {
    if events == [] then map[]
    else
      var blocks, ev := Fold(events[..|events| - 1]), events[|events| - 1];
      blocks[ev.at := Receive(Lookup(blocks, ev.at), ev)]
  }

  /** How an argument string is read: nothing is an empty object, and what does not parse is kept raw. */
  datatype Reader = Reader(parse: string -> Option<string>, raw: string -> string)

  function Arguments(json: string, reader: Reader): string {
    if json == "" then "{}"
    else match reader.parse(json)
         case Some(v) => v
         case None => reader.raw(json)
  }

  function Finish(b: Partial, reader: Reader): Block {
    if b.tool.Some? then ToolUseBlock(b.tool.value.id, b.tool.value.name, Arguments(b.tool.value.json, reader))
    else if b.thought.Some? && b.thought.value.data.Some? then RedactedBlock(b.thought.value.data.value)
    else if b.thought.Some? then ThoughtBlock(b.thought.value.text, b.thought.value.signature)
    else TextBlock(Or(b.text, ""))
  }

  function Indexes(blocks: map<nat, Partial>, bound: nat): (r: seq<nat>)
    ensures forall k :: k in r <==> k < bound && k in blocks
    ensures StrictlyAscending(r)
  {
    Where((k: nat) => k in blocks, 0, bound)
  }

  /** `raw` lists the received blocks in the order of their indexes. */
  ghost predicate Listed(blocks: map<nat, Partial>, reader: Reader, order: seq<nat>, raw: seq<Block>) {
    && StrictlyAscending(order) && (forall k :: k in order <==> k in blocks)
    && |raw| == |order| && forall i :: 0 <= i < |raw| ==> raw[i] == Finish(blocks[order[i]], reader)
  }

  method Assemble(events: seq<Event>, reader: Reader) returns (raw: seq<Block>, yielded: seq<string>)
    ensures exists order :: Listed(Fold(events), reader, order, raw)
    ensures yielded == Yields(events)
  {
    var blocks: map<nat, Partial>, bound: nat := map[], 0;
    yielded := [];
    for i := 0 to |events|
      invariant blocks == Fold(events[..i]) && yielded == Yields(events[..i])
      invariant forall k :: k in blocks ==> k < bound
    {
      var ev := events[i];
      assert events[..i + 1][..i] == events[..i];
      blocks := blocks[ev.at := Receive(Lookup(blocks, ev.at), ev)];
      if ev.TextDelta? { yielded := yielded + [ev.text]; }
      if bound <= ev.at { bound := ev.at + 1; }
    }
    assert events[..|events|] == events;
    var order := Indexes(blocks, bound);
    raw := [];
    for i := 0 to |order|
      invariant |raw| == i && forall j :: 0 <= j < i ==> raw[j] == Finish(blocks[order[j]], reader)
    {
      raw := raw + [Finish(blocks[order[i]], reader)];
    }
    assert Listed(Fold(events), reader, order, raw);
  }

  /** The texts passed on while streaming: every text delta, as it arrives. */
  function Yields(events: seq<Event>): seq<string> {
    if events == [] then []
    else
      var ev := events[|events| - 1];
      Yields(events[..|events| - 1]) + if ev.TextDelta? then [ev.text] else []
  }

  /** What is passed on, event by event. */
  lemma {:induction false} YieldsSplit(a: seq<Event>, b: seq<Event>)
    ensures Yields(a + b) == Yields(a) + Yields(b)
    ensures forall k, text :: Yields([TextDelta(k, text)]) == [text]
    ensures forall ev: Event :: !ev.TextDelta? ==> Yields([ev]) == []
  {
    forall ev: Event ensures Yields([ev]) == if ev.TextDelta? then [ev.text] else [] {
      assert [ev][..0] == [] && Yields([]) == [];
    }
    if b == [] {
      assert a + b == a;
    } else {
      assert (a + b)[..|a + b| - 1] == a + b[..|b| - 1];
      YieldsSplit(a, b[..|b| - 1]);
    }
  }

  // ---- One block at a time -------------------------------------------------------------------

  /** The events of one block, in order. */
  function Project(events: seq<Event>, k: nat): seq<Event> {
    if events == [] then []
    else
      var ev := events[|events| - 1];
      Project(events[..|events| - 1], k) + if ev.at == k then [ev] else []
  }

  function FoldOne(events: seq<Event>): Option<Partial> {
    if events == [] then None else Some(Receive(FoldOne(events[..|events| - 1]), events[|events| - 1]))
  }

  /** Blocks do not disturb each other: what is received at an index depends on that index's events alone. */
  lemma {:induction false} BlocksAreIndependent(events: seq<Event>, k: nat)
    ensures Lookup(Fold(events), k) == FoldOne(Project(events, k))
  {
    hide Receive;
    if events != [] {
      var init, ev := events[..|events| - 1], events[|events| - 1];
      BlocksAreIndependent(init, k);
      var mine := Project(init, k);
      if ev.at == k {
        assert (mine + [ev])[..|mine|] == mine;
      } else {
        assert mine + [] == mine;
      }
    }
  }

  function JoinTexts(events: seq<Event>): string {
    if events == [] then ""
    else
      var ev := events[|events| - 1];
      JoinTexts(events[..|events| - 1]) +
      match ev
      case TextDelta(_, text) => text
      case ToolDelta(_, json) => json
      case ThoughtDelta(_, text, _, _) => Or(text, "")
      case Start(_, _, _) => ""
  }

  function LastSignature(events: seq<Event>): string {
    if events == [] then ""
    else
      var ev := events[|events| - 1];
      if ev.ThoughtDelta? && ev.signature.Some? then ev.signature.value else LastSignature(events[..|events| - 1])
  }

  function LastData(events: seq<Event>): Option<string> {
    if events == [] then None
    else
      var ev := events[|events| - 1];
      if ev.ThoughtDelta? && ev.data.Some? then ev.data else LastData(events[..|events| - 1])
  }

  /**
   * The deltas of a block: its text or arguments cut into any pieces (an empty text may have none), a tool
   * call opened first, a thought or its data in at least one delta, the last signature and data counting.
   */
  ghost predicate Chunks(events: seq<Event>, b: Block, reader: Reader) {
    match b
    case TextBlock(text) =>
      (forall ev :: ev in events ==> ev.TextDelta?) && JoinTexts(events) == text
    case ToolUseBlock(id, name, input) =>
      && events != [] && events[0].Start? && events[0].id == id && events[0].name == name
      && (forall ev :: ev in events[1..] ==> ev.ToolDelta?)
      && var json := JoinTexts(events);
         && (json == "" ==> input == "{}")
         && (json != "" && reader.parse(json).Some? ==> input == reader.parse(json).value)
         && (json != "" && reader.parse(json) == None ==> input == reader.raw(json))
    case ThoughtBlock(thought, signature) =>
      && events != [] && (forall ev :: ev in events ==> ev.ThoughtDelta?)
      && JoinTexts(events) == thought && LastSignature(events) == signature && LastData(events) == None
    case RedactedBlock(data) =>
      && events != [] && (forall ev :: ev in events ==> ev.ThoughtDelta?)
      && LastData(events) == Some(data)
    case ResultBlock(_, _, _) => false
  }

  lemma {:induction false} TextsReceived(events: seq<Event>)
    requires forall ev :: ev in events ==> ev.TextDelta?
    ensures FoldOne(events) == if events == [] then None else Some(Partial(Some(JoinTexts(events)), None, None))
  {
    if events != [] {
      var init, ev := events[..|events| - 1], events[|events| - 1];
      assert ev in events && ev.TextDelta?;
      TextsReceived(init);
      if init == [] {
        assert JoinTexts(init) == "" && "" + ev.text == ev.text;
      }
    }
  }

  lemma {:induction false} CallsReceived(events: seq<Event>)
    requires events != [] && events[0].Start? && forall ev :: ev in events[1..] ==> ev.ToolDelta?
    ensures FoldOne(events) == Some(Partial(None, Some(Call(events[0].id, events[0].name, JoinTexts(events))), None))
  {
    var init, ev := events[..|events| - 1], events[|events| - 1];
    if init == [] {
      assert FoldOne(init) == None && JoinTexts(init) == "";
      assert events[0] == ev;
      assert JoinTexts(events) == JoinTexts(init) + "" && "" + "" == "";
    } else {
      assert init[1..] == events[1..][..|init| - 1];
      assert ev in events[1..] && ev.ToolDelta?;
      CallsReceived(init);
    }
  }

  lemma {:induction false} ThoughtsReceived(events: seq<Event>)
    requires forall ev :: ev in events ==> ev.ThoughtDelta?
    ensures FoldOne(events) ==
            if events == [] then None
            else Some(Partial(None, None, Some(Thought(JoinTexts(events), LastSignature(events), LastData(events)))))
  {
    if events != [] {
      var init, ev := events[..|events| - 1], events[|events| - 1];
      assert ev in events && ev.ThoughtDelta?;
      ThoughtsReceived(init);
      assert JoinTexts([]) == "" && LastSignature([]) == "" && LastData([]) == None;
    }
  }

  /** However a block was cut up, what is received is the block; only an empty text may not arrive at all. */
  lemma {:induction false} ChunksReceived(events: seq<Event>, b: Block, reader: Reader)
    requires Chunks(events, b, reader)
    ensures match FoldOne(events)
            case None => b == TextBlock("")
            case Some(p) => Finish(p, reader) == b
  {
    hide FoldOne;
    match b
    case TextBlock(_) =>
      TextsReceived(events);
      if events == [] { assert JoinTexts([]) == ""; }
    case ToolUseBlock(_, _, _) => CallsReceived(events);
    case ThoughtBlock(_, _) => ThoughtsReceived(events);
    case RedactedBlock(_) => ThoughtsReceived(events);
    case ResultBlock(_, _, _) =>
  }

  // ---- The whole reply -----------------------------------------------------------------------

  /** A stream that delivers a message: each block's events cut that block up, in any interleaving. */
  ghost predicate Delivers(events: seq<Event>, message: seq<Block>, reader: Reader) {
    && (forall ev :: ev in events ==> ev.at < |message|)
    && forall k: nat :: k < |message| ==> Chunks(Project(events, k), message[k], reader)
  }

  lemma {:induction false} OnlyAddressedIndexes(events: seq<Event>, k: nat)
    requires k in Fold(events)
    ensures exists ev :: ev in events && ev.at == k
  {
    var init, ev := events[..|events| - 1], events[|events| - 1];
    if ev.at != k {
      OnlyAddressedIndexes(init, k);
      var e :| e in init && e.at == k;
      assert e in events;
    } else {
      assert ev in events;
    }
  }

  lemma {:induction false} ContentAppends(blocks: seq<Block>, b: Block, from: Source)
    ensures ContentFrom(blocks + [b], from) == ContentFrom(blocks, from) + PartsOf(b, from)
  {
    assert (blocks + [b])[..|blocks|] == blocks;
  }

  /** The content of the blocks received below an index, when each is the message's block or an empty text left out. */
  lemma {:induction false} ContentBelow(blocks: map<nat, Partial>, message: seq<Block>, n: nat, reader: Reader,
                                        order: seq<nat>, raw: seq<Block>, from: Source)
    requires n <= |message| && StrictlyAscending(order) && |raw| == |order|
    requires forall k :: k in order <==> k < n && k in blocks
    requires forall i :: 0 <= i < |raw| ==> raw[i] == Finish(blocks[order[i]], reader)
    requires forall k: nat :: k < n ==> if k in blocks then Finish(blocks[k], reader) == message[k] else message[k] == TextBlock("")
    ensures ContentFrom(raw, from) == ContentFrom(message[..n], from)
  {
    hide PartsOf, Finish, ContentFrom;
    if n == 0 {
      assert order == [];
      assert raw == message[..0];
    } else {
      ContentAppends(message[..n - 1], message[n - 1], from);
      assert message[..n] == message[..n - 1] + [message[n - 1]];
      if n - 1 in blocks {
        var m := |order| - 1;
        assert n - 1 in order;
        LastIsGreatest(order);
        assert order[m] in order;
        assert order[m] == n - 1;
        ContentBelow(blocks, message, n - 1, reader, order[..m], raw[..m], from);
        ContentAppends(raw[..m], raw[m], from);
        assert raw == raw[..m] + [raw[m]];
      } else {
        ContentBelow(blocks, message, n - 1, reader, order, raw, from);
        EmptyTextAddsNothing(from);
      }
    }
  }

  lemma EmptyTextAddsNothing(from: Source)
    ensures PartsOf(TextBlock(""), from) == []
  {
  }

  /** Streaming changes nothing: any delivery of a message is stored as the message would be in one piece. */
  lemma {:induction false} StreamEqualsOneShot(events: seq<Event>, message: seq<Block>, reader: Reader, order: seq<nat>, raw: seq<Block>, from: Source)
    requires Delivers(events, message, reader) && Listed(Fold(events), reader, order, raw)
    ensures ContentFrom(raw, from) == ContentFrom(message, from)
  {
    hide Fold, FoldOne, Project, Chunks, Finish;
    var blocks := Fold(events);
    forall k: nat | k < |message|
      ensures if k in blocks then Finish(blocks[k], reader) == message[k] else message[k] == TextBlock("")
    {
      BlocksAreIndependent(events, k);
      ChunksReceived(Project(events, k), message[k], reader);
    }
    forall k | k in blocks ensures k < |message| {
      OnlyAddressedIndexes(events, k);
    }
    ContentBelow(blocks, message, |message|, reader, order, raw, from);
    assert message[..|message|] == message;
  }

  /**
   * A whole streamed reply: what is passed on meanwhile, and the content stored at its end, which is that
   * of any message the stream delivers.
   */
  method StreamReply(events: seq<Event>, reader: Reader, from: Source) returns (content: seq<Part>, yielded: seq<string>)
    ensures yielded == Yields(events)
    ensures forall message :: Delivers(events, message, reader) ==> content == ContentFrom(message, from)
  {
    var raw;
    raw, yielded := Assemble(events, reader);
    content := ContentFromConverse(raw, from);
    forall message | Delivers(events, message, reader) ensures content == ContentFrom(message, from) {
      var order :| Listed(Fold(events), reader, order, raw);
      StreamEqualsOneShot(events, message, reader, order, raw, from);
    }
  }
}
