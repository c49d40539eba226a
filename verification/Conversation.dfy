/** Folding a chat history into the strictly alternating turns the model service accepts. */
module Conversation {
  import opened Basics

  datatype Role = System | User | Assistant | Tool

  /** Stored content. Absent optional strings are empty: the code tests them by truth value. */
  datatype Part =
    | Text(text: string)
    | Reasoning(thought: string, modelId: string, redacted: string, signature: string, prefix: string)
    | ToolUse(id: string, name: string, input: string)
    | ToolResult(toolUseId: string, content: string, isError: bool)

  datatype Message = Message(role: Role, parts: seq<Part>)

  /** Content as sent. */
  datatype Block =
    | TextBlock(text: string)
    | ThoughtBlock(thought: string, signature: string)
    | RedactedBlock(data: string)
    | ToolUseBlock(id: string, name: string, input: string)
    | ResultBlock(toolUseId: string, text: string, errorStatus: bool)

  /** The model being addressed, and how names and model ids are rewritten for it. */
  datatype Target = Target(modelId: string, anthropic: bool, prefix: string, normalize: string -> string, rename: string -> string)

  /** One turn of the conversation sent. */
  datatype Turn = Turn(user: bool, content: seq<Block>)

  /** A stored thought is replayed only to the model it came from, under the prefix it was made for. */
  predicate Replayable(p: Part, t: Target)
    requires p.Reasoning?
  {
    t.normalize(p.modelId) == t.normalize(t.modelId) && (p.prefix == "" || t.prefix == "" || p.prefix == t.prefix)
  }

  function ResultText(p: Part, t: Target): string
    requires p.ToolResult?
  {
    var text := if p.content != "" then p.content else if p.isError then "error" else "(empty)";
    if p.isError && !t.anthropic then "ERROR: " + text else text
  }

  function BlockOf(p: Part, t: Target): seq<Block> {
    match p
    case Reasoning(thought, _, redacted, signature, _) =>
      if !Replayable(p, t) then []
      else if redacted != "" then [RedactedBlock(redacted)]
      else [ThoughtBlock(thought, signature)]
    case Text(text) => if text == "" then [] else [TextBlock(text)]
    case ToolUse(id, name, input) => [ToolUseBlock(id, t.rename(name), input)]
    case ToolResult(id, _, isError) => [ResultBlock(id, ResultText(p, t), isError && t.anthropic)]
  }

  function Marked(b: Block): Block {
    if b.TextBlock? && b.text != "" then TextBlock("[system] " + b.text) else b
  }

  function BlocksOf(parts: seq<Part>, system: bool, t: Target): seq<Block> {
    if parts == [] then []
    else
      var init, last := BlocksOf(parts[..|parts| - 1], system, t), BlockOf(parts[|parts| - 1], t);
      init + if system && last != [] then [Marked(last[0])] else last
  }

  predicate FromUser(m: Message) { m.role != Assistant }

  /** How each kind of stored content is sent. */
  lemma PartIsSent(p: Part, system: bool, t: Target)
    ensures
      var sent := BlocksOf([p], system, t);
      match p
      case Text(text) => sent == if text == "" then [] else [TextBlock(if system then "[system] " + text else text)]
      case ToolUse(id, name, input) => sent == [ToolUseBlock(id, t.rename(name), input)]
      case ToolResult(id, content, isError) =>
        && |sent| == 1 && sent[0].ResultBlock? && sent[0].toolUseId == id
        && (sent[0].errorStatus <==> isError && t.anthropic)
        && (!isError || t.anthropic ==> sent[0].text == if content != "" then content else if isError then "error" else "(empty)")
        && (isError && !t.anthropic ==> sent[0].text == "ERROR: " + if content != "" then content else "error")
      case Reasoning(thought, modelId, redacted, signature, prefix) =>
        if t.normalize(modelId) != t.normalize(t.modelId) || (prefix != "" && t.prefix != "" && prefix != t.prefix) then sent == []
        else sent == [if redacted != "" then RedactedBlock(redacted) else ThoughtBlock(thought, signature)]
  {
    assert [p][..0] == [] && BlocksOf([], system, t) == [];
  }

  lemma {:induction false} BlocksSplit(a: seq<Part>, b: seq<Part>, system: bool, t: Target)
    ensures BlocksOf(a + b, system, t) == BlocksOf(a, system, t) + BlocksOf(b, system, t)
  {
    hide BlockOf, Marked;
    if b == [] {
      assert a + b == a;
    } else {
      assert (a + b)[..|a + b| - 1] == a + b[..|b| - 1];
      BlocksSplit(a, b[..|b| - 1], system, t);
    }
  }

  // ---- What the history says, block by block -------------------------------------------------

  function Tagged(user: bool, blocks: seq<Block>): seq<(bool, Block)> {
    seq(|blocks|, i requires 0 <= i < |blocks| => (user, blocks[i]))
  }

  /** Every block of the history in order, with the side it speaks for. */
  function Transcript(messages: seq<Message>, t: Target): seq<(bool, Block)> {
    if messages == [] then []
    else
      var m := messages[|messages| - 1];
      Transcript(messages[..|messages| - 1], t) + Tagged(FromUser(m), BlocksOf(m.parts, m.role == System, t))
  }

  /** A message speaks for the assistant exactly when its role says so, and its blocks keep their order. */
  lemma {:induction false} MessageSpeaks(m: Message, t: Target)
    ensures
      var said, blocks := Transcript([m], t), BlocksOf(m.parts, m.role == System, t);
      |said| == |blocks| && forall k :: 0 <= k < |said| ==> said[k] == (m.role in {System, User, Tool}, blocks[k])
  {
    hide BlocksOf;
    assert [m][..0] == [] && Transcript([], t) == [];
  }

  lemma {:induction false} TranscriptSplits(a: seq<Message>, b: seq<Message>, t: Target)
    ensures Transcript(a + b, t) == Transcript(a, t) + Transcript(b, t)
  {
    hide BlocksOf, Tagged;
    if b == [] {
      assert a + b == a;
    } else {
      assert (a + b)[..|a + b| - 1] == a + b[..|b| - 1];
      TranscriptSplits(a, b[..|b| - 1], t);
    }
  }

  function Flatten(turns: seq<Turn>): seq<(bool, Block)> {
    if turns == [] then []
    else Flatten(turns[..|turns| - 1]) + Tagged(turns[|turns| - 1].user, turns[|turns| - 1].content)
  }

  ghost predicate Alternates(turns: seq<Turn>) {
    forall i :: 0 < i < |turns| ==> turns[i - 1].user != turns[i].user
  }

  ghost predicate NoneEmpty(turns: seq<Turn>) {
    forall i :: 0 <= i < |turns| ==> turns[i].content != []
  }

  /** The turns of a transcript: non-empty, alternating, and together exactly the transcript. */
  ghost predicate Groups(turns: seq<Turn>, transcript: seq<(bool, Block)>) {
    NoneEmpty(turns) && Alternates(turns) && Flatten(turns) == transcript
  }

  /** A transcript has only one division into turns. */
  lemma {:induction false} GroupsUnique(g: seq<Turn>, h: seq<Turn>)
    requires NoneEmpty(g) && Alternates(g) && NoneEmpty(h) && Alternates(h) && Flatten(g) == Flatten(h)
    ensures g == h
  {
    if g != [] && h != [] {
      var t := Flatten(g);
      var a, b := g[|g| - 1], h[|h| - 1];
      var p, q := Flatten(g[..|g| - 1]), Flatten(h[..|h| - 1]);
      LastTurnsAgree(p, a, q, b);
      GroupsUnique(g[..|g| - 1], h[..|h| - 1]);
      assert g == g[..|g| - 1] + [a] && h == h[..|h| - 1] + [b];
    } else {
    }
  }

  lemma {:induction false} TaggedInjective(user: bool, a: seq<Block>, b: seq<Block>)
    requires Tagged(user, a) == Tagged(user, b)
    ensures a == b
  {
    assert |a| == |Tagged(user, a)| && |b| == |Tagged(user, b)|;
    forall k | 0 <= k < |a| ensures a[k] == b[k] {
      assert Tagged(user, a)[k].1 == Tagged(user, b)[k].1;
    }
  }

  lemma {:induction false} LastTurnsAgree(p: seq<(bool, Block)>, a: Turn, q: seq<(bool, Block)>, b: Turn)
    requires p + Tagged(a.user, a.content) == q + Tagged(b.user, b.content)
    requires a.content != [] && b.content != []
    requires p == [] || p[|p| - 1].0 != a.user
    requires q == [] || q[|q| - 1].0 != b.user
    ensures a == b && p == q
  {
    var x, y := Tagged(a.user, a.content), Tagged(b.user, b.content);
    assert forall k :: 0 <= k < |x| ==> x[k].0 == a.user;
    assert forall k :: 0 <= k < |y| ==> y[k].0 == b.user;
    assert x != [] && y != [];
    hide Tagged;
    LastRunsAgree(p, x, a.user, q, y, b.user);
    TaggedInjective(a.user, a.content, b.content);
  }

  /** Two ways to cut off the last run of one side are the same. */
  lemma {:induction false} LastRunsAgree(p: seq<(bool, Block)>, x: seq<(bool, Block)>, r: bool, q: seq<(bool, Block)>, y: seq<(bool, Block)>, s: bool)
    requires p + x == q + y && x != [] && y != []
    requires forall k :: 0 <= k < |x| ==> x[k].0 == r
    requires forall k :: 0 <= k < |y| ==> y[k].0 == s
    requires p == [] || p[|p| - 1].0 != r
    requires q == [] || q[|q| - 1].0 != s
    ensures r == s && p == q && x == y
  {
    var t := p + x;
    assert t == q + y;
    assert t[|t| - 1] == x[|x| - 1] && t[|t| - 1] == y[|y| - 1];
    assert forall k :: |p| <= k < |t| ==> t[k].0 == r;
    assert forall k :: |q| <= k < |t| ==> t[k].0 == s;
    assert p != [] ==> t[|p| - 1].0 != r;
    assert q != [] ==> t[|q| - 1].0 != s;
    assert |p| == |q|;
    assert p == t[..|p|] && q == t[..|q|] && x == t[|p|..] && y == t[|q|..];
  }

  // ---- Results first -------------------------------------------------------------------------

  /** The blocks of one kind, in order. */
  function Only(blocks: seq<Block>, results: bool): seq<Block> {
    if blocks == [] then []
    else
      var last := blocks[|blocks| - 1];
      Only(blocks[..|blocks| - 1], results) + if last.ResultBlock? == results then [last] else []
  }

  function ResultsFirst(blocks: seq<Block>): seq<Block> {
    Only(blocks, true) + Only(blocks, false)
  }

  lemma {:induction false} OnlyCounts(blocks: seq<Block>)
    ensures |Only(blocks, true)| + |Only(blocks, false)| == |blocks|
  {
    if blocks != [] {
      var init, last := blocks[..|blocks| - 1], blocks[|blocks| - 1];
      OnlyCounts(init);
      assert blocks == init + [last];
      hide Only;
    }
  }

  lemma {:induction false} OnlyMembers(blocks: seq<Block>, results: bool)
    ensures forall b :: b in Only(blocks, results) <==> b in blocks && b.ResultBlock? == results
  {
    if blocks != [] {
      OnlyMembers(blocks[..|blocks| - 1], results);
      assert blocks == blocks[..|blocks| - 1] + [blocks[|blocks| - 1]];
    }
  }

  lemma {:induction false} OnlyKind(blocks: seq<Block>, results: bool)
    ensures |Only(blocks, results)| == |blocks| ==> Only(blocks, results) == blocks
    ensures Only(blocks, results) == [] ==> Only(blocks, !results) == blocks
  {
    hide Only;
    var other := Only(blocks, !results);
    OnlyCounts(blocks);
    OnlyMembers(blocks, results);
    OnlyMembers(blocks, !results);
    if |Only(blocks, results)| == |blocks| {
      assert forall b :: b in blocks ==> b.ResultBlock? == results by {
        assert other == [];
        assert forall b :: b in blocks && b.ResultBlock? != results ==> b in other;
      }
      OnlyOnce(blocks, results);
    } else if Only(blocks, results) == [] {
      assert forall b :: b in blocks && b.ResultBlock? == results ==> b in Only(blocks, results);
      OnlyOnce(blocks, !results);
    }
  }

  lemma {:induction false} OnlySplits(a: seq<Block>, b: seq<Block>, results: bool)
    ensures Only(a + b, results) == Only(a, results) + Only(b, results)
  {
    if b == [] {
      assert a + b == a;
    } else {
      var init := b[..|b| - 1];
      assert (a + b)[..|a + b| - 1] == a + init;
      OnlySplits(a, init, results);
    }
  }

  lemma {:induction false} OnlyOnce(blocks: seq<Block>, results: bool)
    requires forall b :: b in blocks ==> b.ResultBlock? == results
    ensures Only(blocks, results) == blocks && Only(blocks, !results) == []
  {
    if blocks != [] {
      OnlyOnce(blocks[..|blocks| - 1], results);
      assert blocks == blocks[..|blocks| - 1] + [blocks[|blocks| - 1]];
    }
  }

  /** The rearrangement is a stable partition: results lead, and each kind keeps its blocks and their order. */
  lemma {:induction false} StablePartition(blocks: seq<Block>)
    ensures |ResultsFirst(blocks)| == |blocks|
    ensures forall i, j :: 0 <= i < j < |blocks| && ResultsFirst(blocks)[j].ResultBlock? ==> ResultsFirst(blocks)[i].ResultBlock?
    ensures forall kind :: Only(ResultsFirst(blocks), kind) == Only(blocks, kind)
  {
    hide Only;
    var r, o := Only(blocks, true), Only(blocks, false);
    OnlyCounts(blocks);
    OnlyMembers(blocks, true);
    OnlyMembers(blocks, false);
    OnlyOnce(r, true);
    OnlyOnce(o, false);
    assert forall i :: 0 <= i < |r| ==> r[i] in r;
    assert forall i :: 0 <= i < |o| ==> o[i] in o;
    forall kind ensures Only(r + o, kind) == Only(blocks, kind) {
      OnlySplits(r, o, kind);
    }
  }

  function Arranged(turns: seq<Turn>): seq<Turn> {
    seq(|turns|, i requires 0 <= i < |turns| =>
          if turns[i].user then Turn(true, ResultsFirst(turns[i].content)) else turns[i])
  }

  const OPENING := Turn(true, [TextBlock("(conversation start)")])

  /** A conversation opens with the user; when the history does not, a placeholder does. */
  function Opened(turns: seq<Turn>): seq<Turn> {
    if turns == [] || !turns[0].user then [OPENING] + turns else turns
  }

  // ---- The conversion ------------------------------------------------------------------------

  method ContentToConverse(m: Message, t: Target) returns (blocks: seq<Block>)
    ensures blocks == BlocksOf(m.parts, m.role == System, t)
  {
    blocks := [];
    for i := 0 to |m.parts|
      invariant blocks == BlocksOf(m.parts[..i], m.role == System, t)
    {
      var b := BlockOf(m.parts[i], t);
      assert m.parts[..i + 1][..i] == m.parts[..i];
      blocks := blocks + if m.role == System && b != [] then [Marked(b[0])] else b;
    }
    assert m.parts[..|m.parts|] == m.parts;
  }

  lemma {:induction false} ExtendLast(init: seq<Turn>, last: Turn, blocks: seq<Block>)
    requires NoneEmpty(init + [last]) && Alternates(init + [last])
    ensures Groups(init + [Turn(last.user, last.content + blocks)], Flatten(init + [last]) + Tagged(last.user, blocks))
  {
    var before, after := init + [last], init + [Turn(last.user, last.content + blocks)];
    assert before[..|init|] == init && after[..|init|] == init;
    assert before[|init|] == last;
    assert forall i :: 0 <= i < |after| ==> after[i].user == before[i].user;
  }

  lemma {:induction false} AddTurn(turns: seq<Turn>, turn: Turn)
    requires NoneEmpty(turns) && Alternates(turns) && turn.content != []
    requires turns == [] || turns[|turns| - 1].user != turn.user
    ensures Groups(turns + [turn], Flatten(turns) + Tagged(turn.user, turn.content))
  {
    assert (turns + [turn])[..|turns|] == turns;
  }

  method ToConverseMessages(messages: seq<Message>, t: Target) returns (out: seq<Turn>)
    ensures exists turns :: Groups(turns, Transcript(messages, t)) && out == Opened(Arranged(turns))
  {
    hide Flatten, BlocksOf, Arranged;
    out := [];
    assert Flatten(out) == [] by { FlattenNothing(); }
    for i := 0 to |messages|
      invariant Groups(out, Transcript(messages[..i], t))
    {
      var m := messages[i];
      var blocks := ContentToConverse(m, t);
      assert messages[..i + 1][..i] == messages[..i];
      if blocks == [] {
        assert Transcript(messages[..i + 1], t) == Transcript(messages[..i], t);
      } else if out != [] && out[|out| - 1].user == FromUser(m) {
        var init, last := out[..|out| - 1], out[|out| - 1];
        assert out == init + [last];
        ExtendLast(init, last, blocks);
        out := init + [Turn(last.user, last.content + blocks)];
      } else {
        AddTurn(out, Turn(FromUser(m), blocks));
        out := out + [Turn(FromUser(m), blocks)];
      }
    }
    assert messages[..|messages|] == messages;
    ghost var turns := out;
    out := Arrange(out);
    assert out == Arranged(turns);
    if out == [] || !out[0].user { out := [OPENING] + out; }
  }

  lemma {:induction false} FlattenNothing()
    ensures Flatten([]) == []
  {
  }

  /** The second pass: user turns that mix results with other blocks are rearranged in place. */
  method Arrange(turns: seq<Turn>) returns (out: seq<Turn>)
    ensures out == Arranged(turns)
  {
    hide Only;
    out := turns;
    for i := 0 to |turns|
      invariant |out| == |turns|
      invariant forall k :: 0 <= k < i ==> out[k] == Arranged(turns)[k]
      invariant forall k :: i <= k < |turns| ==> out[k] == turns[k]
    {
      if out[i].user {
        var results := Only(out[i].content, true);
        OnlyCounts(turns[i].content);
        OnlyKind(turns[i].content, true);
        OnlyKind(turns[i].content, false);
        assert [] + turns[i].content == turns[i].content && turns[i].content + [] == turns[i].content;
        if results != [] && |results| < |out[i].content| {
          out := out[i := Turn(true, results + Only(out[i].content, false))];
        }
      }
    }
  }

  /** The turns sent: those of the history, user turns with their results first, after a placeholder unless the user opens. */
  lemma {:induction false} TurnsSent(turns: seq<Turn>)
    ensures var out := Opened(Arranged(turns));
            && |out| == |turns| + (if turns != [] && turns[0].user then 0 else 1)
            && (|out| > |turns| ==> out[0] == Turn(true, [TextBlock("(conversation start)")]))
            && forall k :: 0 <= k < |turns| ==>
                 && out[|out| - |turns| + k].user == turns[k].user
                 && out[|out| - |turns| + k].content == if turns[k].user then ResultsFirst(turns[k].content) else turns[k].content
  {
    hide Only, ResultsFirst;
  }

  /** No result stands behind another block. */
  ghost predicate ResultsLead(blocks: seq<Block>) {
    forall i, j :: 0 <= i < j < |blocks| && blocks[j].ResultBlock? ==> blocks[i].ResultBlock?
  }

  ghost predicate UserResultsLead(turns: seq<Turn>) {
    forall k :: 0 <= k < |turns| && turns[k].user ==> ResultsLead(turns[k].content)
  }

  /** What every request satisfies: it opens with the user, alternates, and has no empty turn; results lead. */
  lemma {:induction false} RequestsAreWellFormed(turns: seq<Turn>)
    requires NoneEmpty(turns) && Alternates(turns)
    ensures var out := Opened(Arranged(turns));
            && out != [] && out[0].user && NoneEmpty(out) && Alternates(out)
            && UserResultsLead(out)
  {
    ArrangedKeeps(turns);
    hide Arranged;
    OpenedKeeps(Arranged(turns));
  }

  lemma {:induction false} ArrangedKeeps(turns: seq<Turn>)
    requires NoneEmpty(turns) && Alternates(turns)
    ensures NoneEmpty(Arranged(turns)) && Alternates(Arranged(turns)) && UserResultsLead(Arranged(turns))
  {
    forall k | 0 <= k < |turns|
      ensures |ResultsFirst(turns[k].content)| == |turns[k].content| && ResultsLead(ResultsFirst(turns[k].content))
    {
      StablePartition(turns[k].content);
    }
    hide ResultsFirst, ResultsLead;
  }

  lemma {:induction false} OpenedKeeps(turns: seq<Turn>)
    requires NoneEmpty(turns) && Alternates(turns) && UserResultsLead(turns)
    ensures var out := Opened(turns); out != [] && out[0].user && NoneEmpty(out) && Alternates(out) && UserResultsLead(out)
  {
    assert ResultsLead(OPENING.content);
    hide ResultsLead;
  }

  // ---- Thoughts are replayed only where they hold ----------------------------------------------

  ghost predicate SpeaksFor(p: Part, b: Block) {
    match b
    case ThoughtBlock(thought, signature) => p.Reasoning? && p.thought == thought && p.signature == signature && p.redacted == ""
    case RedactedBlock(data) => p.Reasoning? && p.redacted == data
    case _ => false
  }

  /** Every thought in a request was stored by the same model, under the same prefix or none. */
  lemma {:induction false} ThoughtsAreReplayable(parts: seq<Part>, system: bool, t: Target, b: Block)
    requires b in BlocksOf(parts, system, t) && (b.ThoughtBlock? || b.RedactedBlock?)
    ensures exists p :: p in parts && SpeaksFor(p, b) && Replayable(p, t)
  {
    var n := |parts| - 1;
    var last := BlockOf(parts[n], t);
    if b in BlocksOf(parts[..n], system, t) {
      ThoughtsAreReplayable(parts[..n], system, t, b);
    } else {
      assert b in last;
      assert parts[n] in parts && SpeaksFor(parts[n], b) && Replayable(parts[n], t);
    }
  }
}
