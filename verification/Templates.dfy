/** The prompt template engine's syntax: tokens, a recursive-descent parser, and the printer that undoes both. */
module Templates {
  import opened Basics
  import opened Positions

  // ---- Strings -------------------------------------------------------------------------------

  /** White space and line terminators, as `trim` removes them. */
  predicate IsSpace(c: char) {
    || c as int in {0x09, 0x0A, 0x0B, 0x0C, 0x0D, 0x20, 0xA0, 0x1680, 0x2028, 0x2029, 0x202F, 0x205F, 0x3000, 0xFEFF}
    || 0x2000 <= c as int <= 0x200A
  }

  /** The usual white space is, and what paths, tags and names are written with is not. */
  lemma SpacesAre(c: char)
    ensures c in " \t\r\n" ==> IsSpace(c)
    ensures 0x21 <= c as int < 0x7F ==> !IsSpace(c)
  {
    assert " \t\r\n"[0] == ' ' && " \t\r\n"[1] == '\t' && " \t\r\n"[2] == '\r' && " \t\r\n"[3] == '\n';
  }

  function TrimStart(s: string): (r: string)
    ensures r == "" || !IsSpace(r[0])
    ensures s == "" || !IsSpace(s[0]) ==> r == s
  {
    if s != "" && IsSpace(s[0]) then TrimStart(s[1..]) else s
  }

  function TrimEnd(s: string): (r: string)
    ensures r == "" || !IsSpace(r[|r| - 1])
    ensures s == "" || !IsSpace(s[|s| - 1]) ==> r == s
    ensures r <= s
  {
    if s != "" && IsSpace(s[|s| - 1]) then TrimEnd(s[..|s| - 1]) else s
  }

  function Trim(s: string): (r: string)
    ensures r == "" || (!IsSpace(r[0]) && !IsSpace(r[|r| - 1]))
    ensures s == "" || (!IsSpace(s[0]) && !IsSpace(s[|s| - 1])) ==> r == s
  {
    TrimEnd(TrimStart(s))
  }

  lemma TrimIdempotent(s: string)
    ensures Trim(Trim(s)) == Trim(s)
  {
  }

  ghost predicate AllSpace(s: string) {
    forall i :: 0 <= i < |s| ==> IsSpace(s[i])
  }

  /** Trimming takes off exactly the white space at the ends. */
  lemma {:induction false} TrimMeans(left: string, s: string, right: string)
    requires AllSpace(left) && AllSpace(right) && (s == "" || (!IsSpace(s[0]) && !IsSpace(s[|s| - 1])))
    ensures Trim(left + s + right) == s
  {
    hide IsSpace;
    TrimStartTakes(left, s + right);
    assert left + s + right == left + (s + right);
    if s == "" {
      assert s + right == right;
      TrimStartTakes(right, "");
      assert right + "" == right;
    } else {
      TrimEndTakes(s, right);
    }
  }

  lemma {:induction false} TrimStartTakes(left: string, s: string)
    requires AllSpace(left)
    ensures TrimStart(left + s) == TrimStart(s)
  {
    hide IsSpace;
    if left == "" {
      assert left + s == s;
    } else {
      assert (left + s)[1..] == left[1..] + s;
      TrimStartTakes(left[1..], s);
    }
  }

  lemma {:induction false} TrimEndTakes(s: string, right: string)
    requires AllSpace(right)
    ensures TrimEnd(s + right) == TrimEnd(s)
  {
    hide IsSpace;
    if right == "" {
      assert s + right == s;
    } else {
      assert (s + right)[..|s + right| - 1] == s + right[..|right| - 1];
      TrimEndTakes(s, right[..|right| - 1]);
    }
  }

  predicate StartsWith(s: string, p: string) {
    |p| <= |s| && s[..|p|] == p
  }

  // ---- Tokens --------------------------------------------------------------------------------

  datatype Token = Text(text: string) | Tag(tag: string)

  function Pair(src: string, c: char): nat -> bool {
    (i: nat) => i + 1 < |src| && src[i] == c && src[i + 1] == c
  }

  /** The first `{{...}}` from `pos` on: where it opens and where it closes. */
  function NextTag(src: string, pos: nat): (r: Option<(nat, nat)>)
    requires pos <= |src|
    ensures r.Some? ==> pos <= r.value.0 && r.value.0 + 2 <= r.value.1 && r.value.1 + 2 <= |src|
  {
    match First(Pair(src, '{'), pos, |src|)
    case None => None
    case Some(open) =>
      match First(Pair(src, '}'), open + 2, |src|)
      case None => None
      case Some(close) => Some((open, close))
  }

  function TextToken(src: string, from: nat, end: nat): seq<Token>
    requires from <= end <= |src|
  {
    if from == end then [] else [Text(src[from..end])]
  }

  function TagToken(src: string, from: nat, end: nat): Token
    requires from <= end <= |src|
  {
    Tag(Trim(src[from..end]))
  }

  function Tokens(src: string, pos: nat): seq<Token>
    requires pos <= |src|
    decreases |src| - pos
  {
    match NextTag(src, pos)
    case None => TextToken(src, pos, |src|)
    case Some((open, close)) =>
      TextToken(src, pos, open) + [TagToken(src, open + 2, close)] + Tokens(src, close + 2)
  }

  method Tokenize(src: string) returns (tokens: seq<Token>)
    ensures tokens == Tokens(src, 0)
  {
    hide NextTag, TagToken, Tokens;
    tokens := [];
    var last := 0;
    var m := NextTag(src, 0);
    while m.Some?
      invariant last <= |src| && m == NextTag(src, last)
      invariant tokens + Tokens(src, last) == Tokens(src, 0)
      decreases |src| - last
    {
      var (open, close) := m.value;
      var tag := TagToken(src, open + 2, close);
      TokensUnfold(src, last);
      StepTokens(tokens, TextToken(src, last, open), tag, Tokens(src, close + 2));
      if open > last { tokens := tokens + [Text(src[last..open])]; }
      tokens := tokens + [tag];
      last := close + 2;
      m := NextTag(src, last);
    }
    TokensUnfold(src, last);
    assert tokens + TextToken(src, last, |src|) == Tokens(src, 0);
    if last < |src| { tokens := tokens + [Text(src[last..|src|])]; }
  }

  lemma TokensUnfold(src: string, pos: nat)
    requires pos <= |src|
    ensures NextTag(src, pos) == None ==> Tokens(src, pos) == TextToken(src, pos, |src|)
    ensures NextTag(src, pos).Some? ==>
              var (open, close) := NextTag(src, pos).value;
              Tokens(src, pos) ==
              TextToken(src, pos, open) + [TagToken(src, open + 2, close)] + Tokens(src, close + 2)
  {
  }

  lemma StepTokens(done: seq<Token>, text: seq<Token>, tag: Token, rest: seq<Token>)
    ensures done + (text + [tag] + rest) == (done + text) + [tag] + rest
    ensures done + [] == done
  {
  }

  // ---- Syntax --------------------------------------------------------------------------------

  datatype Node =
    | TextNode(value: string)
    | Insert(path: string, json: bool)
    | If(path: string, then_: seq<Node>, else_: seq<Node>)
    | Each(path: string, body: seq<Node>)

  /** A parsed block, the tag that closed it, and where the cursor stands; Bad for a TemplateError. */
  datatype Block = Block(nodes: seq<Node>, closer: Option<string>, next: nat) | Bad

  function Before(nodes: seq<Node>, b: Block): Block {
    if b.Bad? then Bad else b.(nodes := nodes + b.nodes)
  }

  lemma BeforeNothing(b: Block)
    ensures Before([], b) == b
  {
  }

  lemma BeforeBlock(a: seq<Node>, b: Block)
    ensures b.Bad? ==> Before(a, b) == Bad
    ensures b.Block? ==> Before(a, b) == Block(a + b.nodes, b.closer, b.next)
  {
  }

  lemma BeforeBefore(a: seq<Node>, c: seq<Node>, b: Block)
    ensures Before(a, Before(c, b)) == Before(a + c, b)
  {
    if b.Block? {
      assert a + (c + b.nodes) == (a + c) + b.nodes;
    }
  }

  const CLOSERS := ["else", "/if", "/each"]

  predicate IsComment(tag: string) { StartsWith(tag, "!") }
  predicate IsKnowledge(tag: string) { StartsWith(tag, "knowledge:") }
  predicate OpensIf(tag: string) { StartsWith(tag, "#if ") }
  predicate OpensEach(tag: string) { StartsWith(tag, "#each ") }
  predicate IsBlockTag(tag: string) { StartsWith(tag, "#") || StartsWith(tag, "/") }

  function IfPath(tag: string): string
    requires OpensIf(tag)
  {
    Trim(tag[4..])
  }

  function EachPath(tag: string): string
    requires OpensEach(tag)
  {
    Trim(tag[6..])
  }

  function InsertFor(tag: string): Node {
    if StartsWith(tag, "json ") then Insert(Trim(tag[5..]), true) else Insert(tag, false)
  }

  predicate Closes(t: Token, closers: seq<string>) {
    t.Tag? && !IsComment(t.tag) && !IsKnowledge(t.tag) && t.tag in closers
  }

  function ParseFrom(tokens: seq<Token>, i: nat, closers: seq<string>): (r: Block)
    requires i <= |tokens|
    ensures r.Block? ==> i <= r.next <= |tokens|
    ensures r.Block? && r.closer.Some? ==>
              r.closer.value in closers && i < r.next && tokens[r.next - 1] == Tag(r.closer.value)
    ensures r.Block? && r.closer == None ==> r.next == |tokens|
    decreases |tokens| - i, 0
  {
    if i == |tokens| then Block([], None, i)
    else if Closes(tokens[i], closers) then Block([], Some(tokens[i].tag), i + 1)
    else
      var item := ParseItem(tokens, i);
      if item.Bad? then Bad else Before(item.nodes, ParseFrom(tokens, item.next, closers))
  }

  /** One construct that does not close its block: the nodes it yields and where it ends. */
  function ParseItem(tokens: seq<Token>, i: nat): (r: Block)
    requires i < |tokens|
    ensures r.Block? ==> i < r.next <= |tokens| && r.closer == None
    decreases |tokens| - i - 1, 1
  {
    match tokens[i]
    case Text(s) => Block([TextNode(s)], None, i + 1)
    case Tag(tag) =>
      if IsComment(tag) then Block([], None, i + 1)
      else if IsKnowledge(tag) then Block([TextNode("{{" + tag + "}}")], None, i + 1)
      else if OpensIf(tag) then
        var thenB := ParseFrom(tokens, i + 1, ["else", "/if"]);
        if thenB.Bad? || thenB.closer == None then Bad
        else if thenB.closer == Some("/if") then Block([If(IfPath(tag), thenB.nodes, [])], None, thenB.next)
        else
          var elseB := ParseFrom(tokens, thenB.next, ["/if"]);
          if elseB.Bad? || elseB.closer == None then Bad
          else Block([If(IfPath(tag), thenB.nodes, elseB.nodes)], None, elseB.next)
      else if OpensEach(tag) then
        var body := ParseFrom(tokens, i + 1, ["/each"]);
        if body.Bad? || body.closer == None then Bad
        else Block([Each(EachPath(tag), body.nodes)], None, body.next)
      else if IsBlockTag(tag) then Bad
      else Block([InsertFor(tag)], None, i + 1)
  }

  /** The parser proper: one shared cursor, advanced by loops and nested calls. */
  method ParseBlock(tokens: seq<Token>, start: nat, closers: seq<string>) returns (r: Block)
    requires start <= |tokens|
    ensures r == ParseFrom(tokens, start, closers)
    decreases |tokens| - start
  {
    hide IsComment, IsKnowledge, OpensIf, OpensEach, IsBlockTag, InsertFor, IfPath, EachPath, Before;
    BeforeNothing(ParseFrom(tokens, start, closers));
    var nodes, i := [], start;
    while i < |tokens|
      invariant start <= i <= |tokens|
      invariant ParseFrom(tokens, start, closers) == Before(nodes, ParseFrom(tokens, i, closers))
      decreases |tokens| - i
    {
      var t := tokens[i];
      var added, next := [], i + 1;
      if t.Text? {
        added := [TextNode(t.text)];
      } else if IsComment(t.tag) {
        BeforeNothing(ParseFrom(tokens, next, closers));
      } else if IsKnowledge(t.tag) {
        added := [TextNode("{{" + t.tag + "}}")];
      } else if t.tag in closers {
        BeforeBlock(nodes, Block([], Some(t.tag), i + 1));
        return Block(nodes, Some(t.tag), i + 1);
      } else if OpensIf(t.tag) {
        var thenB := ParseBlock(tokens, i + 1, ["else", "/if"]);
        if thenB.Bad? || thenB.closer == None { BeforeBlock(nodes, Bad); return Bad; }
        var elseNodes := [];
        next := thenB.next;
        if thenB.closer == Some("else") {
          var elseB := ParseBlock(tokens, thenB.next, ["/if"]);
          if elseB.Bad? || elseB.closer != Some("/if") { BeforeBlock(nodes, Bad); return Bad; }
          elseNodes, next := elseB.nodes, elseB.next;
        }
        added := [If(IfPath(t.tag), thenB.nodes, elseNodes)];
      } else if OpensEach(t.tag) {
        var body := ParseBlock(tokens, i + 1, ["/each"]);
        if body.Bad? || body.closer != Some("/each") { BeforeBlock(nodes, Bad); return Bad; }
        added, next := [Each(EachPath(t.tag), body.nodes)], body.next;
      } else if IsBlockTag(t.tag) {
        BeforeBlock(nodes, Bad);
        return Bad;
      } else {
        added := [InsertFor(t.tag)];
      }
      assert ParseFrom(tokens, i, closers) == Before(added, ParseFrom(tokens, next, closers));
      BeforeBefore(nodes, added, ParseFrom(tokens, next, closers));
      nodes, i := nodes + added, next;
    }
    BeforeBlock(nodes, Block([], None, i));
    return Block(nodes, None, i);
  }

  /** How a tag on its own is read: as nothing, as text, as an insert, or, when it opens or closes something, not at all. */
  lemma TagReads(tag: string)
    ensures
      var read := ParseFrom([Tag(tag)], 0, []);
      && ("!" <= tag ==> read == Block([], None, 1))
      && ("knowledge:" <= tag ==> read == Block([TextNode("{{" + tag + "}}")], None, 1))
      && ("#" <= tag || "/" <= tag ==> read == Bad)
      && ("json " <= tag ==> read == Block([Insert(Trim(tag[5..]), true)], None, 1))
      && (!("!" <= tag) && !("knowledge:" <= tag) && !("#" <= tag) && !("/" <= tag) && !("json " <= tag) ==>
            read == Block([Insert(tag, false)], None, 1))
  {
    hide Trim;
    var tokens := [Tag(tag)];
    assert tag != "" ==> ("!" <= tag <==> tag[0] == '!') && ("#" <= tag <==> tag[0] == '#') && ("/" <= tag <==> tag[0] == '/');
    assert "knowledge:" <= tag ==> tag[0] == 'k' && tag[..10] == "knowledge:";
    assert "json " <= tag ==> tag[0] == 'j' && tag[..5] == "json ";
    assert OpensIf(tag) || OpensEach(tag) ==> tag[0] == '#';
    assert StartsWith(tag, "json ") ==> tag[0] == 'j';
    assert IsKnowledge(tag) ==> tag[0] == 'k';
    var none := ParseFrom(tokens, 1, []);
    assert none == Block([], None, 1);
    assert ParseFrom(tokens, 1, ["else", "/if"]) == Block([], None, 1) && ParseFrom(tokens, 1, ["/each"]) == Block([], None, 1);
    assert !Closes(tokens[0], []);
  }

  // ---- The syntax tree spells the tokens ---------------------------------------------------------

  /** A token as the tree can show it: `{{#if  x}}` and `{{#if x}}` are the same. */
  function Plain(t: Token): Token {
    match t
    case Text(s) => t
    case Tag(tag) =>
      if IsKnowledge(tag) then Text("{{" + tag + "}}")
      else if OpensIf(tag) then Tag("#if " + IfPath(tag))
      else if OpensEach(tag) then Tag("#each " + EachPath(tag))
      else if StartsWith(tag, "json ") then Tag("json " + Trim(tag[5..]))
      else t
  }

  /** Puts a token before others: comments vanish, and so does any `else`, separator or stray, right before a closing `/if`. */
  function Put(t: Token, rest: seq<Token>): seq<Token> {
    if t.Tag? && IsComment(t.tag) then rest
    else if t == Tag("else") && rest != [] && rest[0] == Tag("/if") then rest
    else [Plain(t)] + rest
  }

  function PutAll(tokens: seq<Token>, from: nat, end: nat, rest: seq<Token>): seq<Token>
    requires from <= end <= |tokens|
    decreases end - from
  {
    if from == end then rest else Put(tokens[from], PutAll(tokens, from + 1, end, rest))
  }

  /** The tokens a tree stands for, in front of `rest`. */
  function Spell(nodes: seq<Node>, rest: seq<Token>): seq<Token>
    decreases nodes
  {
    if nodes == [] then rest else SpellNode(nodes[0], Spell(nodes[1..], rest))
  }

  function SpellNode(n: Node, rest: seq<Token>): seq<Token>
    decreases n
  {
    match n
    case TextNode(s) => [Text(s)] + rest
    case Insert(path, json) => if json then [Tag("json " + path)] + rest else Put(Tag(path), rest)
    case If(path, then_, else_) =>
      [Tag("#if " + path)] + Spell(then_, Put(Tag("else"), Spell(else_, [Tag("/if")] + rest)))
    case Each(path, body) => [Tag("#each " + path)] + Spell(body, [Tag("/each")] + rest)
  }

  lemma {:induction false} PutAllSplit(tokens: seq<Token>, from: nat, mid: nat, end: nat, rest: seq<Token>)
    requires from <= mid <= end <= |tokens|
    ensures PutAll(tokens, from, end, rest) == PutAll(tokens, from, mid, PutAll(tokens, mid, end, rest))
    decreases mid - from
  {
    if from < mid {
      PutAllSplit(tokens, from + 1, mid, end, rest);
    }
  }

  lemma {:induction false} SpellSplit(a: seq<Node>, b: seq<Node>, rest: seq<Token>)
    ensures Spell(a + b, rest) == Spell(a, Spell(b, rest))
  {
    if a == [] {
      assert a + b == b;
    } else {
      assert (a + b)[1..] == a[1..] + b;
      SpellSplit(a[1..], b, rest);
    }
  }

  /** Where the content of a block ends: before its closer, if it has one. */
  function ContentEnd(b: Block): int
    requires b.Block?
  {
    if b.closer == None then b.next else b.next - 1
  }

  /**
   * Nothing lost, doubled, moved or invented: the tree of a parsed block spells exactly the tokens it
   * was read from, comments and empty `else` branches aside.
   */
  lemma {:induction false} TreeSpellsTokens(tokens: seq<Token>, i: nat, closers: seq<string>, rest: seq<Token>)
    requires i <= |tokens| && ParseFrom(tokens, i, closers).Block?
    ensures var b := ParseFrom(tokens, i, closers);
            i <= ContentEnd(b) <= |tokens| && Spell(b.nodes, rest) == PutAll(tokens, i, ContentEnd(b), rest)
    decreases |tokens| - i, 0
  {
    hide ParseItem, Put;
    if i < |tokens| && !Closes(tokens[i], closers) {
      var item := ParseItem(tokens, i);
      var b := ParseFrom(tokens, item.next, closers);
      TreeSpellsTokens(tokens, item.next, closers, rest);
      ItemSpells(tokens, i, Spell(b.nodes, rest));
      PutAllSplit(tokens, i, item.next, ContentEnd(b), rest);
      SpellSplit(item.nodes, b.nodes, rest);
    }
  }

  lemma ClosersStay(rest: seq<Token>)
    ensures Put(Tag("/if"), rest) == [Tag("/if")] + rest
    ensures Put(Tag("/each"), rest) == [Tag("/each")] + rest
  {
    assert "/if"[0] == '/' && "/each"[0] == '/';
    assert !IsComment("/if") && !IsComment("/each");
    assert Plain(Tag("/if")) == Tag("/if");
  }

  lemma {:induction false} ItemSpells(tokens: seq<Token>, i: nat, rest: seq<Token>)
    requires i < |tokens| && ParseItem(tokens, i).Block?
    ensures Spell(ParseItem(tokens, i).nodes, rest) == PutAll(tokens, i, ParseItem(tokens, i).next, rest)
    decreases |tokens| - i - 1, 2
  {
    hide Trim, StartsWith, ParseFrom;
    var item := ParseItem(tokens, i);
    if tokens[i].Tag? {
      var tag := tokens[i].tag;
      if IsComment(tag) {
        assert Spell(item.nodes, rest) == rest;
      } else if IsKnowledge(tag) {
        KnowledgeSpells(tag, rest);
      } else if OpensIf(tag) {
        IfSpells(tokens, i, rest);
      } else if OpensEach(tag) {
        EachSpells(tokens, i, rest);
      } else {
        hide Spell, PutAll;
        PlainInsertSpells(tag, rest);
      }
    }
  }

  lemma KnowledgeSpells(tag: string, rest: seq<Token>)
    requires !IsComment(tag) && IsKnowledge(tag)
    ensures Put(Tag(tag), rest) == [Text("{{" + tag + "}}")] + rest
  {
    assert tag != "else" by {
      assert |tag| > 4;
    }
  }

  lemma PlainInsertSpells(tag: string, rest: seq<Token>)
    requires !IsComment(tag) && !IsKnowledge(tag) && !OpensIf(tag) && !OpensEach(tag)
    ensures SpellNode(InsertFor(tag), rest) == Put(Tag(tag), rest)
  {
    if StartsWith(tag, "json ") {
      assert tag != "else";
    }
  }

  /** What an opening tag becomes, whatever stands behind it. */
  lemma OpenersStay(tag: string, rest: seq<Token>)
    requires !IsComment(tag) && !IsKnowledge(tag)
    ensures OpensIf(tag) ==> Put(Tag(tag), rest) == [Tag("#if " + IfPath(tag))] + rest
    ensures OpensEach(tag) && !OpensIf(tag) ==> Put(Tag(tag), rest) == [Tag("#each " + EachPath(tag))] + rest
  {
  }

  lemma {:induction false} EachSpells(tokens: seq<Token>, i: nat, rest: seq<Token>)
    requires i < |tokens| && tokens[i].Tag? && OpensEach(tokens[i].tag) && !OpensIf(tokens[i].tag)
    requires !IsComment(tokens[i].tag) && !IsKnowledge(tokens[i].tag)
    requires ParseItem(tokens, i).Block?
    ensures Spell(ParseItem(tokens, i).nodes, rest) == PutAll(tokens, i, ParseItem(tokens, i).next, rest)
    decreases |tokens| - i - 1, 1
  {
    hide ParseFrom, Trim, StartsWith, Put;
    var body := ParseFrom(tokens, i + 1, ["/each"]);
    TreeSpellsTokens(tokens, i + 1, ["/each"], [Tag("/each")] + rest);
    PutAllSplit(tokens, i + 1, body.next - 1, body.next, rest);
    ClosersStay(rest);
    OpenersStay(tokens[i].tag, PutAll(tokens, i + 1, body.next, rest));
  }

  lemma {:induction false} IfSpells(tokens: seq<Token>, i: nat, rest: seq<Token>)
    requires i < |tokens| && tokens[i].Tag? && OpensIf(tokens[i].tag)
    requires !IsComment(tokens[i].tag) && !IsKnowledge(tokens[i].tag)
    requires ParseItem(tokens, i).Block?
    ensures Spell(ParseItem(tokens, i).nodes, rest) == PutAll(tokens, i, ParseItem(tokens, i).next, rest)
    decreases |tokens| - i - 1, 1
  {
    hide ParseFrom, Trim, StartsWith, Put;
    var item := ParseItem(tokens, i);
    var thenB := ParseFrom(tokens, i + 1, ["else", "/if"]);
    var path, elses := IfPath(tokens[i].tag), item.nodes[0].else_;
    var tail := [Tag("/if")] + rest;
    ClosersStay(rest);
    OpenersStay(tokens[i].tag, PutAll(tokens, i + 1, item.next, rest));
    var behind := PutAll(tokens, thenB.next - 1, item.next, rest);
    PutAllSplit(tokens, i + 1, thenB.next - 1, item.next, rest);
    TreeSpellsTokens(tokens, i + 1, ["else", "/if"], behind);
    assert behind == Put(Tag("else"), Spell(elses, tail)) by {
      if thenB.closer == Some("else") {
        TreeSpellsTokens(tokens, thenB.next, ["/if"], tail);
        PutAllSplit(tokens, thenB.next, item.next - 1, item.next, rest);
      } else {
        HollowElse(rest);
      }
    }
  }

  lemma HollowElse(rest: seq<Token>)
    ensures Put(Tag("else"), Spell([], [Tag("/if")] + rest)) == [Tag("/if")] + rest
  {
  }

  // ---- ... and the tokens it spells parse back to the tree ----------------------------------------

  /** A plain insert that no other rule of the parser claims. */
  predicate IsInsertTag(tag: string) {
    && !IsComment(tag) && !IsKnowledge(tag) && !OpensIf(tag) && !OpensEach(tag) && !IsBlockTag(tag)
    && !StartsWith(tag, "json ") && tag != "else"
  }

  /** The trees templates can write: trimmed paths, tags that read as inserts, no stray `else`. */
  predicate Canonical(nodes: seq<Node>)
    decreases nodes
  {
    nodes == [] || (CanonicalNode(nodes[0]) && Canonical(nodes[1..]))
  }

  predicate CanonicalNode(n: Node)
    decreases n
  {
    match n
    case TextNode(_) => true
    case Insert(path, json) => if json then Trim(path) == path else IsInsertTag(path)
    case If(path, then_, else_) => Trim(path) == path && Canonical(then_) && Canonical(else_)
    case Each(path, body) => Trim(path) == path && Canonical(body)
  }

  lemma ElsePasses(a: seq<Token>, rest: seq<Token>)
    requires a != []
    ensures Put(Tag("else"), a + rest) == Put(Tag("else"), a) + rest
  {
  }

  lemma {:induction false} SpellAppends(nodes: seq<Node>, a: seq<Token>, rest: seq<Token>)
    requires Canonical(nodes)
    ensures Spell(nodes, a + rest) == Spell(nodes, a) + rest
    ensures |Spell(nodes, a)| >= |a|
    decreases nodes
  {
    hide SpellNode;
    if nodes != [] {
      SpellAppends(nodes[1..], a, rest);
      NodeAppends(nodes[0], Spell(nodes[1..], a), rest);
    }
  }

  lemma {:induction false} NodeAppends(n: Node, a: seq<Token>, rest: seq<Token>)
    requires CanonicalNode(n)
    ensures SpellNode(n, a + rest) == SpellNode(n, a) + rest
    ensures |SpellNode(n, a)| > |a|
    decreases n
  {
    hide Trim, Spell, StartsWith;
    match n
    case TextNode(s) => assert SpellNode(n, a) + rest == [Text(s)] + (a + rest);
    case Insert(path, json) => assert SpellNode(n, a) + rest == SpellNode(n, a + rest);
    case Each(path, body) =>
      SpellAppends(body, [Tag("/each")] + a, rest);
      assert ([Tag("/each")] + a) + rest == [Tag("/each")] + (a + rest);
      assert SpellNode(n, a + rest) == SpellNode(n, a) + rest;
    case If(path, then_, else_) =>
      hide Put;
      var tail := [Tag("/if")] + a;
      assert tail + rest == [Tag("/if")] + (a + rest);
      SpellAppends(else_, tail, rest);
      ElsePasses(Spell(else_, tail), rest);
      ElseGrows(Spell(else_, tail));
      SpellAppends(then_, Put(Tag("else"), Spell(else_, tail)), rest);
      assert SpellNode(n, a + rest) == SpellNode(n, a) + rest;
  }

  lemma ElseGrows(a: seq<Token>)
    ensures |Put(Tag("else"), a)| >= |a|
  {
  }

  /** `piece` stands in `tokens` at position `i`. */
  ghost predicate At(tokens: seq<Token>, i: nat, piece: seq<Token>) {
    i + |piece| <= |tokens| && forall k :: i <= k < i + |piece| ==> tokens[k] == piece[k - i]
  }

  lemma AtFits(tokens: seq<Token>, i: nat, piece: seq<Token>)
    requires At(tokens, i, piece)
    ensures i + |piece| <= |tokens| && (piece != [] ==> tokens[i] == piece[0])
  {
  }

  lemma AtSplit(tokens: seq<Token>, i: nat, a: seq<Token>, b: seq<Token>)
    requires At(tokens, i, a + b)
    ensures At(tokens, i, a) && At(tokens, i + |a|, b)
  {
    forall k | i <= k < i + |a| ensures tokens[k] == a[k - i] {
      assert tokens[k] == (a + b)[k - i];
    }
    forall k | i + |a| <= k < i + |a| + |b| ensures tokens[k] == b[k - (i + |a|)] {
      assert tokens[k] == (a + b)[k - i];
    }
  }

  /** Printing a canonical tree and parsing what was printed gives the tree back, wherever it stands. */
  lemma {:induction false} PrintedParsesBack(nodes: seq<Node>, tokens: seq<Token>, i: nat, closers: seq<string>)
    requires Canonical(nodes) && closers in [[], ["else", "/if"], ["/if"], ["/each"]]
    requires At(tokens, i, Spell(nodes, []))
    ensures ParseFrom(tokens, i, closers) == Before(nodes, ParseFrom(tokens, i + |Spell(nodes, [])|, closers))
    decreases nodes, 1
  {
    hide ParseItem, SpellNode, At, Before, CanonicalNode, Closes;
    if nodes == [] {
      AtFits(tokens, i, []);
      BeforeNothing(ParseFrom(tokens, i, closers));
    } else {
      var n, rest := nodes[0], Spell(nodes[1..], []);
      NodeAppends(n, [], rest);
      assert [] + rest == rest;
      assert Spell(nodes, []) == SpellNode(n, []) + rest;
      AtSplit(tokens, i, SpellNode(n, []), rest);
      var next := i + |SpellNode(n, [])|;
      NodeParsesBack(n, tokens, i, closers);
      PrintedParsesBack(nodes[1..], tokens, next, closers);
      BeforeBefore([n], nodes[1..], ParseFrom(tokens, next + |rest|, closers));
      assert [n] + nodes[1..] == nodes;
    }
  }

  lemma InsertReadsBack(path: string, json: bool)
    requires CanonicalNode(Insert(path, json))
    ensures var tag := if json then "json " + path else path;
            && !IsComment(tag) && !IsKnowledge(tag) && !OpensIf(tag) && !OpensEach(tag) && !IsBlockTag(tag)
            && tag !in CLOSERS && InsertFor(tag) == Insert(path, json)
            && (!json ==> Put(Tag(tag), []) == [Tag(tag)])
  {
    if json {
      var tag := "json " + path;
      assert tag[0] == 'j' && tag[..5] == "json " && tag[5..] == path;
      assert "else"[0] == 'e' && "/if"[0] == '/' && "/each"[0] == '/' && "knowledge:"[0] == 'k' && "!"[0] == '!' && "#"[0] == '#';
      assert "#if "[0] == '#' && "#each "[0] == '#';
    } else {
      assert !StartsWith(path, "/");
      assert "/if"[..1] == "/" && "/each"[..1] == "/";
    }
  }

  lemma {:induction false} NodeParsesBack(n: Node, tokens: seq<Token>, i: nat, closers: seq<string>)
    requires CanonicalNode(n) && closers in [[], ["else", "/if"], ["/if"], ["/each"]]
    requires At(tokens, i, SpellNode(n, [])) && |SpellNode(n, [])| > 0
    ensures !Closes(tokens[i], closers)
    ensures ParseItem(tokens, i) == Block([n], None, i + |SpellNode(n, [])|)
    decreases n, 1
  {
    hide Trim, Spell, StartsWith;
    assert tokens[i] == SpellNode(n, [])[0];
    match n
    case TextNode(s) =>
    case Insert(path, json) => InsertReadsBack(path, json);
    case Each(path, body) => OpenersReadBack(path); EachParsesBack(n, tokens, i);
    case If(path, then_, else_) => OpenersReadBack(path); IfParsesBack(n, tokens, i);
  }

  lemma OpenersReadBack(path: string)
    requires Trim(path) == path
    ensures var t := "#if " + path; !IsComment(t) && !IsKnowledge(t) && OpensIf(t) && IfPath(t) == path && t !in CLOSERS
    ensures var t := "#each " + path; !IsComment(t) && !IsKnowledge(t) && !OpensIf(t) && OpensEach(t) && EachPath(t) == path && t !in CLOSERS
  {
    var t, u := "#if " + path, "#each " + path;
    assert t[0] == '#' && t[..4] == "#if " && t[4..] == path;
    assert u[0] == '#' && u[1] == 'e' && u[..6] == "#each " && u[6..] == path;
    assert "else"[0] == 'e' && "/if"[0] == '/' && "/each"[0] == '/';
    assert "#if "[1] == 'i' && "knowledge:"[0] == 'k' && "!"[0] == '!';
  }

  /** A body followed by the tag that closes its block parses to the body and that tag. */
  lemma {:induction false} BodyParsesBack(body: seq<Node>, tokens: seq<Token>, i: nat, closers: seq<string>, closer: string)
    requires Canonical(body) && closers in [["else", "/if"], ["/if"], ["/each"]]
    requires closer in closers && !IsComment(closer) && !IsKnowledge(closer)
    requires At(tokens, i, Spell(body, []) + [Tag(closer)])
    ensures ParseFrom(tokens, i, closers) == Block(body, Some(closer), i + |Spell(body, [])| + 1)
    decreases body, 2
  {
    hide At, Spell, Canonical, IsComment, IsKnowledge;
    AtSplit(tokens, i, Spell(body, []), [Tag(closer)]);
    var end := i + |Spell(body, [])|;
    AtFits(tokens, end, [Tag(closer)]);
    PrintedParsesBack(body, tokens, i, closers);
    assert ParseFrom(tokens, end, closers) == Block([], Some(closer), end + 1);
    BeforeBlock(body, Block([], Some(closer), end + 1));
  }

  lemma {:induction false} EachParsesBack(n: Node, tokens: seq<Token>, i: nat)
    requires n.Each? && CanonicalNode(n) && At(tokens, i, SpellNode(n, []))
    ensures i < |tokens| && tokens[i] == Tag("#each " + n.path)
    ensures ParseItem(tokens, i) == Block([n], None, i + |SpellNode(n, [])|)
    decreases n, 0
  {
    var open, closer := Tag("#each " + n.path), [Tag("/each")];
    var body := Spell(n.body, []) + closer;
    SpellAppends(n.body, [], closer);
    assert [] + closer == closer && closer + [] == closer;
    assert SpellNode(n, []) == [open] + body;
    hide At, Spell, Canonical, StartsWith, Trim, SpellNode, ParseFrom;
    AtSplit(tokens, i, [open], body);
    AtFits(tokens, i, [open]);
    ClosersStay([]);
    OpenersReadBack(n.path);
    ClosersClose();
    BodyParsesBack(n.body, tokens, i + 1, ["/each"], "/each");
  }

  lemma ClosersClose()
    ensures forall c :: c in CLOSERS ==> !IsComment(c) && !IsKnowledge(c)
  {
    assert "else"[0] == 'e' && "/if"[0] == '/' && "/each"[0] == '/';
  }

  /** The tokens of an `if`: its opener, the branch taken, and what follows the branch. */
  lemma IfSpelled(n: Node)
    requires n.If? && CanonicalNode(n)
    ensures SpellNode(n, []) ==
            [Tag("#if " + n.path)] + (Spell(n.then_, []) +
                                      if n.else_ == [] then [Tag("/if")] else [Tag("else")] + (Spell(n.else_, []) + [Tag("/if")]))
  {
    hide Spell, Put, Trim, StartsWith, Canonical;
    var closer := [Tag("/if")];
    SpellAppends(n.else_, [], closer);
    assert [] + closer == closer && closer + [] == closer;
    ElseShows(n.else_, closer);
    var behind := Put(Tag("else"), Spell(n.else_, closer));
    SpellAppends(n.then_, [], behind);
    assert [] + behind == behind;
  }

  lemma {:induction false} IfParsesBack(n: Node, tokens: seq<Token>, i: nat)
    requires n.If? && CanonicalNode(n) && At(tokens, i, SpellNode(n, []))
    ensures i < |tokens| && tokens[i] == Tag("#if " + n.path)
    ensures ParseItem(tokens, i) == Block([n], None, i + |SpellNode(n, [])|)
    decreases n, 0
  {
    hide At, Spell, Canonical, StartsWith, Trim, SpellNode, ParseFrom;
    var open, closer, thens := [Tag("#if " + n.path)], [Tag("/if")], Spell(n.then_, []);
    IfSpelled(n);
    OpenersReadBack(n.path);
    ClosersClose();
    if n.else_ == [] {
      AtSplit(tokens, i, open, thens + closer);
      AtFits(tokens, i, open);
      BodyParsesBack(n.then_, tokens, i + 1, ["else", "/if"], "/if");
    } else {
      var elses, mid := Spell(n.else_, []) + closer, [Tag("else")];
      assert open + (thens + (mid + elses)) == open + (thens + mid) + elses;
      AtSplit(tokens, i, open + (thens + mid), elses);
      AtSplit(tokens, i, open, thens + mid);
      AtFits(tokens, i, open);
      BodyParsesBack(n.then_, tokens, i + 1, ["else", "/if"], "else");
      BodyParsesBack(n.else_, tokens, i + 2 + |thens|, ["/if"], "/if");
    }
  }

  lemma NoCloserFirst(n: Node, rest: seq<Token>)
    requires CanonicalNode(n)
    ensures |SpellNode(n, rest)| > 0 && SpellNode(n, rest)[0] != Tag("/if")
  {
    hide Spell;
    assert "/if"[0] == '/' && "/if"[..1] == "/" && "json "[0] == 'j' && "#if "[0] == '#' && "#each "[0] == '#';
    if n.Insert? && n.json {
      assert ("json " + n.path)[0] == 'j';
    } else if n.If? {
      assert ("#if " + n.path)[0] == '#';
    } else if n.Each? {
      assert ("#each " + n.path)[0] == '#';
    }
  }

  /** The `else` of a canonical tree is printed exactly when there is something behind it. */
  lemma ElseShows(else_: seq<Node>, closer: seq<Token>)
    requires Canonical(else_) && closer == [Tag("/if")]
    ensures Put(Tag("else"), Spell(else_, []) + closer) ==
            if else_ == [] then closer else [Tag("else")] + (Spell(else_, []) + closer)
  {
    hide SpellNode;
    if else_ == [] {
      assert [] + closer == closer;
    } else {
      NoCloserFirst(else_[0], Spell(else_[1..], []));
      ClosersClose();
    }
  }

  // ---- From source text and back -----------------------------------------------------------------

  /** Token lists as source text. */
  function Write(tokens: seq<Token>): string {
    if tokens == [] then ""
    else
      (match tokens[0]
       case Text(s) => s
       case Tag(tag) => "{{" + tag + "}}") + Write(tokens[1..])
  }

  predicate NoPair(s: string, c: char) {
    forall i :: 0 <= i < |s| - 1 ==> !(s[i] == c && s[i + 1] == c)
  }

  /** Text that does not run into a tag behind it, and tags that do not end early. */
  predicate WritableText(s: string) {
    s != "" && NoPair(s, '{') && s[|s| - 1] != '{'
  }

  predicate WritableTag(tag: string) {
    Trim(tag) == tag && NoPair(tag, '}') && (tag != "" ==> tag[|tag| - 1] != '}')
  }

  predicate WritableAt(tokens: seq<Token>, i: nat)
    requires i < |tokens|
  {
    match tokens[i]
    case Text(s) => WritableText(s) && (i + 1 < |tokens| ==> tokens[i + 1].Tag?)
    case Tag(tag) => WritableTag(tag)
  }

  /** Token lists that stand for themselves in source text: no two texts in a row. */
  predicate Writable(tokens: seq<Token>) {
    forall i: nat :: i < |tokens| ==> WritableAt(tokens, i)
  }

  lemma FirstIs(at: nat -> bool, from: nat, bound: nat, k: nat)
    requires from <= k < bound && at(k) && forall j: nat :: from <= j < k ==> !at(j)
    ensures First(at, from, bound) == Some(k)
  {
    var r := First(at, from, bound);
    assert r.Some?;
  }

  /** The search for the next tag finds a written tag behind a written text. */
  lemma {:induction false} WrittenTagFound(pre: string, s: string, tag: string, tail: string)
    requires s == "" || WritableText(s)
    requires WritableTag(tag)
    ensures var src := pre + s + "{{" + tag + "}}" + tail; var open := |pre| + |s|;
            NextTag(src, |pre|) == Some((open, open + 2 + |tag|))
  {
    hide Trim;
    var src, open := pre + s + "{{" + tag + "}}" + tail, |pre| + |s|;
    var close := open + 2 + |tag|;
    assert src[open] == '{' && src[open + 1] == '{' && src[close] == '}' && src[close + 1] == '}';
    assert forall i :: |pre| <= i < open ==> src[i] == s[i - |pre|];
    assert forall i :: open + 2 <= i < close ==> src[i] == tag[i - (open + 2)];
    forall j: nat | |pre| <= j < open ensures !Pair(src, '{')(j) {
      assert src[j] == s[j - |pre|];
      assert j + 1 < open ==> src[j + 1] == s[j - |pre| + 1];
    }
    FirstIs(Pair(src, '{'), |pre|, |src|, open);
    forall j: nat | open + 2 <= j < close ensures !Pair(src, '}')(j) {
      assert src[j] == tag[j - (open + 2)];
      assert j + 1 < close ==> src[j + 1] == tag[j - (open + 2) + 1];
    }
    FirstIs(Pair(src, '}'), open + 2, |src|, close);
  }

  lemma {:induction false} LastTextRead(pre: string, s: string)
    requires WritableText(s)
    ensures Tokens(pre + s, |pre|) == [Text(s)]
  {
    var src := pre + s;
    forall j: nat | |pre| <= j < |src| ensures !Pair(src, '{')(j) {
      assert src[j] == s[j - |pre|];
      assert j + 1 < |src| ==> src[j + 1] == s[j - |pre| + 1];
    }
    assert src[|pre|..|src|] == s;
  }

  lemma {:induction false} WritableParts(tokens: seq<Token>, k: nat)
    requires Writable(tokens) && k < |tokens|
    ensures Writable(tokens[k + 1..])
    ensures tokens[k].Text? ==> WritableText(tokens[k].text) && (k + 1 < |tokens| ==> tokens[k + 1].Tag?)
    ensures tokens[k].Tag? ==> WritableTag(tokens[k].tag)
  {
    hide WritableText, WritableTag;
    assert WritableAt(tokens, k);
    var rest := tokens[k + 1..];
    forall i: nat | i < |rest| ensures WritableAt(rest, i) {
      assert WritableAt(tokens, k + 1 + i);
    }
  }

  /** One tag with the text before it, read from the source. */
  lemma {:induction false} TagReadsBack(pre: string, s: string, tag: string, tail: string, rest: seq<Token>)
    requires (s == "" || WritableText(s)) && WritableTag(tag)
    requires Tokens(pre + s + "{{" + tag + "}}" + tail, |pre| + |s| + 4 + |tag|) == rest
    ensures Tokens(pre + s + "{{" + tag + "}}" + tail, |pre|) == (if s == "" then [] else [Text(s)]) + [Tag(tag)] + rest
  {
    hide NextTag, Trim, Tokens;
    var src := pre + s + "{{" + tag + "}}" + tail;
    WrittenTagFound(pre, s, tag, tail);
    TokensUnfold(src, |pre|);
    PiecesOf(pre, s, tag, tail);
  }

  /** Written tokens read back, whatever stands before them. */
  lemma {:induction false} WrittenTokensReadBack(pre: string, tokens: seq<Token>)
    requires Writable(tokens)
    ensures Tokens(pre + Write(tokens), |pre|) == tokens
    decreases |tokens|
  {
    hide Trim, WritableText, WritableTag, Tokens, Writable;
    if tokens == [] {
      TokensUnfold(pre, |pre|);
      assert pre + "" == pre;
    } else {
      WritableParts(tokens, 0);
      var first, rest := tokens[0], tokens[1..];
      assert tokens == [first] + rest;
      if first.Tag? {
        var after := pre + "" + "{{" + first.tag + "}}";
        WrittenTokensReadBack(after, rest);
        TagReadsBack(pre, "", first.tag, Write(rest), rest);
        assert after + Write(rest) == pre + Write(tokens);
      } else if rest == [] {
        LastTextRead(pre, first.text);
        assert first.text + "" == first.text;
      } else {
        TextAndTag(pre, tokens);
      }
    }
  }

  lemma {:induction false} TextAndTag(pre: string, tokens: seq<Token>)
    requires Writable(tokens) && |tokens| > 1 && tokens[0].Text?
    ensures Tokens(pre + Write(tokens), |pre|) == tokens
    decreases |tokens|, 0
  {
    hide Trim, WritableText, WritableTag, Tokens, Writable;
    WritableParts(tokens, 0);
    WritableParts(tokens, 1);
    var s, tag, rest := tokens[0].text, tokens[1].tag, tokens[2..];
    var after := pre + s + "{{" + tag + "}}";
    WrittenTokensReadBack(after, rest);
    TagReadsBack(pre, s, tag, Write(rest), rest);
    assert tokens[1..][1..] == rest;
    assert Write(tokens) == s + ("{{" + tag + "}}" + Write(rest));
    assert after + Write(rest) == pre + Write(tokens);
    TextIsNotEmpty(s);
    assert tokens == [Text(s)] + [Tag(tag)] + rest;
  }

  lemma TextIsNotEmpty(s: string)
    requires WritableText(s)
    ensures s != ""
  {
  }

  lemma PiecesOf(pre: string, s: string, tag: string, tail: string)
    ensures var src := pre + s + "{{" + tag + "}}" + tail; var open := |pre| + |s|;
            src[|pre|..open] == s && src[open + 2..open + 2 + |tag|] == tag
  {
  }

  /** A canonical tree written out as source text, tokenized and parsed is the tree again. */
  lemma {:induction false} SourceRoundTrip(nodes: seq<Node>)
    requires Canonical(nodes) && Writable(Spell(nodes, []))
    ensures var tokens := Tokens(Write(Spell(nodes, [])), 0);
            ParseFrom(tokens, 0, []) == Block(nodes, None, |tokens|)
  {
    hide Canonical, Spell, Writable, Write, Tokens;
    var spelled := Spell(nodes, []);
    WrittenTokensReadBack("", spelled);
    assert "" + Write(spelled) == Write(spelled);
    PrintedParsesBack(nodes, spelled, 0, []);
    BeforeBlock(nodes, Block([], None, |spelled|));
    assert nodes + [] == nodes;
  }

  lemma SpellOne(n: Node, rest: seq<Token>)
    ensures Spell([n], rest) == SpellNode(n, rest) && (Canonical([n]) <==> CanonicalNode(n))
  {
    assert [n][1..] == [] && Spell([], rest) == rest && Canonical([]);
  }

  lemma PlainInsert(rest: seq<Token>)
    ensures IsInsertTag("y") && Spell([Insert("y", false)], rest) == [Tag("y")] + rest && Canonical([Insert("y", false)])
  {
    SpellOne(Insert("y", false), rest);
    assert "y"[0] == 'y' && |"y"| == 1;
  }

  const EXAMPLE := If("x", [Insert("y", false)], [TextNode("no")])

  lemma ExampleSpells()
    ensures Canonical([EXAMPLE])
    ensures Spell([EXAMPLE], []) == [Tag("#if x"), Tag("y"), Tag("else"), Text("no"), Tag("/if")]
  {
    var closing := [Tag("/if")];
    assert closing + [] == closing;
    SpellOne(EXAMPLE, []);
    SpellOne(TextNode("no"), closing);
    assert Spell([TextNode("no")], closing) == [Text("no"), Tag("/if")];
    assert !IsComment("else") && Plain(Tag("else")) == Tag("else") by { assert "else"[0] == 'e'; }
    PlainInsert(Put(Tag("else"), [Text("no"), Tag("/if")]));
    hide Spell, Plain, IsInsertTag, OpensIf, OpensEach, IsKnowledge;
    assert "#if " + "x" == "#if x";
  }

  /** There are such trees: one with a condition, both its branches and an insert. */
  lemma ExampleIsCanonical()
    ensures Canonical([EXAMPLE]) && Writable(Spell([EXAMPLE], []))
  {
    ExampleSpells();
    hide Spell, Canonical, IsSpace, Trim;
    var tokens := Spell([EXAMPLE], []);
    PlainTagIsWritable("#if x");
    PlainTagIsWritable("y");
    PlainTagIsWritable("else");
    PlainTagIsWritable("/if");
    assert WritableText("no");
    hide WritableText, WritableTag;
    forall i: nat | i < |tokens| ensures WritableAt(tokens, i) {
      assert i == 0 || i == 1 || i == 2 || i == 3 || i == 4;
    }
  }

  lemma PlainTagIsWritable(tag: string)
    requires tag != "" && tag[0] > ' ' && tag[|tag| - 1] > ' '
    requires forall i :: 0 <= i < |tag| ==> tag[i] < '}'
    ensures WritableTag(tag)
  {
    SpacesAre(tag[0]);
    SpacesAre(tag[|tag| - 1]);
  }
}
