/** Rendering a template against nested scopes, and what the static reference scan is worth. */
module Rendering {
  import opened Basics
  import opened Decimals
  import opened Templates

  // ---- Values and paths ----------------------------------------------------------------------

  datatype Value =
    | Undefined
    | Null
    | Bool(b: bool)
    | Num(n: real)
    | Str(s: string)
    | Arr(items: seq<Value>)
    | Obj(fields: seq<(string, Value)>)

  /** How values are written: JSON with two-space indentation, and numbers in text. */
  datatype Printer = Printer(json: Value -> string, number: real -> string)

  function Strip(s: string): string {
    if StartsWith(s, "$") then s[1..] else s
  }

  /** The path as both the renderer and the scan read it. */
  function Key(path: string): string {
    Strip(Trim(path))
  }

  /** The dot-separated, non-empty segments of s[from..], where the segment being read began at `start`. */
  function Segments(s: string, start: nat, i: nat): seq<string>
    requires start <= i <= |s|
    decreases |s| - i
  {
    if i == |s| then Segment(s, start, i)
    else if s[i] == '.' then Segment(s, start, i) + Segments(s, i + 1, i + 1)
    else Segments(s, start, i + 1)
  }

  function Segment(s: string, start: nat, end: nat): seq<string>
    requires start <= end <= |s|
  {
    if start == end then [] else [s[start..end]]
  }

  function PathSegs(key: string): seq<string> {
    var segs := Segments(key, 0, 0);
    if segs != [] && segs[0] == "this" then segs[1..] else segs
  }

  function FieldOf(fields: seq<(string, Value)>, name: string): Value {
    if fields == [] then Undefined
    else if fields[0].0 == name then fields[0].1
    else FieldOf(fields[1..], name)
  }

  function Member(v: Value, name: string): Value {
    match v
    case Arr(items) =>
      if IsDigits(name) then if Decimal(name) < |items| then items[Decimal(name)] else Undefined
      else if name == "length" then Num(|items| as real)
      else Undefined
    case Obj(fields) => FieldOf(fields, name)
    case _ => Undefined
  }

  function Walk(root: Value, segs: seq<string>): Value
    decreases |segs|
  {
    if segs == [] then root
    else if root.Undefined? || root.Null? then Undefined
    else Walk(Member(root, segs[0]), segs[1..])
  }

  /** The innermost scope that has the path, searching outward from the end of `scopes`. */
  function Search(scopes: seq<Value>, segs: seq<string>): Value {
    if scopes == [] then Undefined
    else
      var v := Walk(scopes[|scopes| - 1], segs);
      if v != Undefined then v else Search(scopes[..|scopes| - 1], segs)
  }

  function Resolve(path: string, scopes: seq<Value>): Value
    requires scopes != []
  {
    var key := Key(path);
    if key == "this" || key == "." then scopes[|scopes| - 1] else Search(scopes, PathSegs(key))
  }

  /** The lookup as the renderer performs it: one loop over the segments, one over the scopes. */
  method ResolvePath(path: string, scopes: seq<Value>) returns (v: Value)
    requires scopes != []
    ensures v == Resolve(path, scopes)
  {
    hide Key, PathSegs, Walk;
    var key := Key(path);
    if key == "this" || key == "." { return scopes[|scopes| - 1]; }
    var segs := PathSegs(key);
    var i := |scopes|;
    assert scopes[..i] == scopes;
    while i > 0
      invariant i <= |scopes|
      invariant Search(scopes[..i], segs) == Search(scopes, segs)
    {
      i := i - 1;
      v := WalkPath(scopes[i], segs);
      assert scopes[..i + 1][..i] == scopes[..i];
      if v != Undefined { return; }
    }
    return Undefined;
  }

  method WalkPath(root: Value, segs: seq<string>) returns (cur: Value)
    ensures cur == Walk(root, segs)
  {
    hide Member;
    cur := root;
    for i := 0 to |segs|
      invariant Walk(root, segs) == Walk(cur, segs[i..])
    {
      if cur.Undefined? || cur.Null? { return Undefined; }
      assert segs[i..][1..] == segs[i + 1..];
      cur := Member(cur, segs[i]);
    }
  }

  // ---- Rendering -----------------------------------------------------------------------------

  predicate Truthy(v: Value) {
    match v
    case Arr(items) => items != []
    case Str(s) => s != ""
    case Num(n) => n != 0.0
    case Bool(b) => b
    case Obj(_) => true
    case _ => false
  }

  function Stringify(pr: Printer, v: Value, json: bool): string {
    match v
    case Undefined => ""
    case Null => ""
    case Str(s) => if json then pr.json(v) else s
    case Num(n) => if json then pr.json(v) else pr.number(n)
    case Bool(b) => if json then pr.json(v) else if b then "true" else "false"
    case _ => pr.json(v)
  }

  function Values(fields: seq<(string, Value)>): seq<Value> {
    seq(|fields|, i requires 0 <= i < |fields| => fields[i].1)
  }

  function Items(v: Value): seq<Value> {
    match v
    case Arr(items) => items
    case Obj(fields) => Values(fields)
    case _ => []
  }

  function Meta(i: nat, n: nat): Value {
    Obj([("@index", Num(i as real)), ("@first", Bool(i == 0)), ("@last", Bool(i + 1 == n))])
  }

  function Render(pr: Printer, nodes: seq<Node>, scopes: seq<Value>): string
    requires scopes != []
    decreases nodes, 1
  {
    if nodes == [] then "" else RenderNode(pr, nodes[0], scopes) + Render(pr, nodes[1..], scopes)
  }

  function RenderNode(pr: Printer, n: Node, scopes: seq<Value>): string
    requires scopes != []
    decreases n, 1
  {
    match n
    case TextNode(s) => s
    case Insert(path, json) => Stringify(pr, Resolve(path, scopes), json)
    case If(path, then_, else_) =>
      if Truthy(Resolve(path, scopes)) then Render(pr, then_, scopes) else Render(pr, else_, scopes)
    case Each(path, body) => RenderEach(pr, body, Items(Resolve(path, scopes)), 0, scopes)
  }

  function RenderEach(pr: Printer, body: seq<Node>, items: seq<Value>, i: nat, scopes: seq<Value>): string
    requires scopes != [] && i <= |items|
    decreases body, 2, |items| - i
  {
    if i == |items| then ""
    else Render(pr, body, scopes + [Meta(i, |items|), items[i]]) + RenderEach(pr, body, items, i + 1, scopes)
  }

  method RenderBlock(pr: Printer, nodes: seq<Node>, scopes: seq<Value>) returns (out: string)
    requires scopes != []
    ensures out == Render(pr, nodes, scopes)
    decreases nodes, 0
  {
    hide Resolve, Stringify, Truthy, Items;
    out := "";
    for k := 0 to |nodes|
      invariant Render(pr, nodes, scopes) == out + Render(pr, nodes[k..], scopes)
    {
      var n, piece := nodes[k], "";
      assert nodes[k..][0] == n && nodes[k..][1..] == nodes[k + 1..];
      if n.TextNode? {
        piece := n.value;
      } else {
        var v := ResolvePath(n.path, scopes);
        if n.Insert? {
          piece := Stringify(pr, v, n.json);
        } else if n.If? {
          if Truthy(v) { piece := RenderBlock(pr, n.then_, scopes); } else { piece := RenderBlock(pr, n.else_, scopes); }
        } else {
          piece := RenderItems(pr, n.body, Items(v), scopes);
        }
      }
      out := out + piece;
    }
  }

  method RenderItems(pr: Printer, body: seq<Node>, items: seq<Value>, scopes: seq<Value>) returns (out: string)
    requires scopes != []
    ensures out == RenderEach(pr, body, items, 0, scopes)
    decreases body, 1
  {
    hide Render, Meta;
    out := "";
    for i := 0 to |items|
      invariant RenderEach(pr, body, items, 0, scopes) == out + RenderEach(pr, body, items, i, scopes)
    {
      var part := RenderBlock(pr, body, scopes + [Meta(i, |items|), items[i]]);
      out := out + part;
    }
  }

  // ---- What a rendering is -------------------------------------------------------------------

  lemma {:induction false} RenderSplits(pr: Printer, a: seq<Node>, b: seq<Node>, scopes: seq<Value>)
    requires scopes != []
    ensures Render(pr, a + b, scopes) == Render(pr, a, scopes) + Render(pr, b, scopes)
  {
    hide RenderNode;
    if a == [] {
      assert a + b == b;
    } else {
      assert (a + b)[1..] == a[1..] + b;
      RenderSplits(pr, a[1..], b, scopes);
    }
  }

  lemma RenderOne(pr: Printer, n: Node, scopes: seq<Value>)
    requires scopes != []
    ensures Render(pr, [n], scopes) == RenderNode(pr, n, scopes)
  {
    assert [n][1..] == [] && Render(pr, [], scopes) == "";
  }

  lemma TextRenders(pr: Printer, text: string, scopes: seq<Value>)
    requires scopes != []
    ensures Render(pr, [TextNode(text)], scopes) == text
  {
    RenderOne(pr, TextNode(text), scopes);
  }

  /** What an insert writes for each kind of value: nothing for no value, text as it is unless as JSON. */
  lemma InsertRendersValue(pr: Printer, path: string, json: bool, scopes: seq<Value>)
    requires scopes != []
    ensures
      var v, out := Resolve(path, scopes), Render(pr, [Insert(path, json)], scopes);
      && (v in {Undefined, Null} ==> out == "")
      && (v !in {Undefined, Null} && (json || v.Arr? || v.Obj?) ==> out == pr.json(v))
      && (!json && v.Str? ==> out == v.s)
      && (!json && v.Num? ==> out == pr.number(v.n))
      && (!json && v == Bool(true) ==> out == "true")
      && (!json && v == Bool(false) ==> out == "false")
  {
    hide Resolve;
    RenderOne(pr, Insert(path, json), scopes);
  }

  /** An `if` renders its second branch for exactly these six values, and its first for every other. */
  lemma IfRenders(pr: Printer, path: string, a: seq<Node>, b: seq<Node>, scopes: seq<Value>)
    requires scopes != []
    ensures Render(pr, [If(path, a, b)], scopes) ==
            if Resolve(path, scopes) in {Undefined, Null, Bool(false), Num(0.0), Str(""), Arr([])} then Render(pr, b, scopes)
            else Render(pr, a, scopes)
  {
    hide Resolve;
    RenderOne(pr, If(path, a, b), scopes);
  }

  function Joined(parts: seq<string>): string {
    if parts == [] then "" else parts[0] + Joined(parts[1..])
  }

  /** The list a loop runs over: the items of an array, the field values of an object, otherwise nothing. */
  ghost predicate LoopsOver(v: Value, items: seq<Value>) {
    match v
    case Arr(xs) => items == xs
    case Obj(fields) => |items| == |fields| && forall k :: 0 <= k < |fields| ==> items[k] == fields[k].1
    case _ => items == []
  }

  /** A loop renders its body once per item, in order, with the position and the item as innermost scopes. */
  lemma EachRenders(pr: Printer, path: string, body: seq<Node>, scopes: seq<Value>, items: seq<Value>, parts: seq<string>)
    requires scopes != [] && LoopsOver(Resolve(path, scopes), items) && |parts| == |items|
    requires forall k :: 0 <= k < |items| ==> parts[k] == Render(pr, body, scopes + [Meta(k, |items|), items[k]])
    ensures Render(pr, [Each(path, body)], scopes) == Joined(parts)
  {
    hide Resolve, Render, Meta;
    RenderOne(pr, Each(path, body), scopes);
    assert Items(Resolve(path, scopes)) == items;
    EachRendersFrom(pr, body, scopes, items, parts, 0);
    assert parts[0..] == parts;
  }

  lemma {:induction false} EachRendersFrom(pr: Printer, body: seq<Node>, scopes: seq<Value>, items: seq<Value>, parts: seq<string>, i: nat)
    requires scopes != [] && |parts| == |items| && i <= |items|
    requires forall k :: 0 <= k < |items| ==> parts[k] == Render(pr, body, scopes + [Meta(k, |items|), items[k]])
    ensures RenderEach(pr, body, items, i, scopes) == Joined(parts[i..])
    decreases |items| - i
  {
    hide Render, Meta;
    if i < |items| {
      EachRendersFrom(pr, body, scopes, items, parts, i + 1);
      assert parts[i..][1..] == parts[i + 1..];
    }
  }

  /** Inside a loop, `this` is the item and the three loop names tell its position, unless the item has such a field. */
  lemma LoopNamesMean(k: nat, n: nat, item: Value, scopes: seq<Value>)
    ensures Resolve("this", scopes + [Meta(k, n), item]) == item
    ensures Walk(item, ["@index"]) == Undefined ==> Resolve("@index", scopes + [Meta(k, n), item]) == Num(k as real)
    ensures Walk(item, ["@first"]) == Undefined ==> Resolve("@first", scopes + [Meta(k, n), item]) == Bool(k == 0)
    ensures Walk(item, ["@last"]) == Undefined ==> Resolve("@last", scopes + [Meta(k, n), item]) == Bool(k == n - 1)
  {
    ThisMeans(scopes + [Meta(k, n), item]);
    hide Walk, Meta, Resolve;
    if Walk(item, ["@index"]) == Undefined { LoopNameMeans("@index", k, n, item, scopes); }
    if Walk(item, ["@first"]) == Undefined { LoopNameMeans("@first", k, n, item, scopes); }
    if Walk(item, ["@last"]) == Undefined { LoopNameMeans("@last", k, n, item, scopes); }
  }

  lemma ThisMeans(scopes: seq<Value>)
    requires scopes != []
    ensures Resolve("this", scopes) == Resolve(".", scopes) == scopes[|scopes| - 1]
  {
    hide Search, PathSegs;
    assert Key("this") == "this" && Key(".") == ".";
  }

  lemma LoopNameIsKey(name: string)
    requires name in ["@index", "@first", "@last"]
    ensures Key(name) == name && name != "this" && name != "."
  {
    assert name[0] == '@' && name[|name| - 1] in ['x', 't'];
  }

  lemma LoopNameMeans(name: string, k: nat, n: nat, item: Value, scopes: seq<Value>)
    requires name in ["@index", "@first", "@last"] && Walk(item, [name]) == Undefined
    ensures Resolve(name, scopes + [Meta(k, n), item]) ==
            if name == "@index" then Num(k as real) else if name == "@first" then Bool(k == 0) else Bool(k == n - 1)
  {
    MetaValue(name, k, n);
    PlainName(name);
    LoopNameIsKey(name);
    hide Walk, Meta, Search, PathSegs, Key;
    SecondScopeHas(scopes, Meta(k, n), item, [name]);
  }

  lemma SecondScopeHas(scopes: seq<Value>, second: Value, last: Value, segs: seq<string>)
    requires Walk(last, segs) == Undefined && Walk(second, segs) != Undefined
    ensures Search(scopes + [second, last], segs) == Walk(second, segs)
  {
    hide Walk;
    var all := scopes + [second, last];
    assert all[..|all| - 1] == scopes + [second];
    assert Search(scopes + [second], segs) == Walk(second, segs);
  }

  /** So a loop whose body inserts `this` writes the items one after the other. */
  lemma LoopOverTexts(pr: Printer, path: string, scopes: seq<Value>, texts: seq<string>)
    requires scopes != [] && Resolve(path, scopes).Arr? && |Resolve(path, scopes).items| == |texts|
    requires forall k :: 0 <= k < |texts| ==> Resolve(path, scopes).items[k] == Str(texts[k])
    ensures Render(pr, [Each(path, [Insert("this", false)])], scopes) == Joined(texts)
  {
    var items := Resolve(path, scopes).items;
    hide Resolve, Render, Meta;
    forall k | 0 <= k < |items|
      ensures texts[k] == Render(pr, [Insert("this", false)], scopes + [Meta(k, |items|), items[k]])
    {
      LoopNamesMean(k, |items|, items[k], scopes);
      InsertRendersValue(pr, "this", false, scopes + [Meta(k, |items|), items[k]]);
    }
    EachRenders(pr, path, [Insert("this", false)], scopes, items, texts);
  }

  // ---- What a path means ---------------------------------------------------------------------

  /** The spelling of a path: white space around it and one leading dollar do not count. */
  lemma KeyMeans(left: string, name: string, right: string)
    requires AllSpace(left) && AllSpace(right) && name != "" && name[0] != '$'
    requires !IsSpace(name[0]) && !IsSpace(name[|name| - 1])
    ensures Key(left + name + right) == name && Key(left + ("$" + name) + right) == name
  {
    TrimMeans(left, name, right);
    TrimMeans(left, "$" + name, right);
    assert ("$" + name)[1..] == name && ("$" + name)[..1] == "$";
  }

  /** Dots separate segments, and empty ones do not count. */
  lemma {:induction false} SegmentsAtDot(a: string, b: string)
    ensures Segments(a + "." + b, 0, 0) == Segments(a, 0, 0) + Segments(b, 0, 0)
  {
    SegmentsBefore(a, b, 0, 0);
  }

  lemma {:induction false} SegmentsBefore(a: string, b: string, start: nat, i: nat)
    requires start <= i <= |a|
    ensures Segments(a + "." + b, start, i) == Segments(a, start, i) + Segments(b, 0, 0)
    decreases |a| - i
  {
    var s := a + "." + b;
    assert s[start..i] == a[start..i];
    if i == |a| {
      assert s[i] == '.' && s[|a| + 1..] == b;
      SegmentsShift(s, b, |a| + 1, 0, 0);
    } else {
      assert s[i] == a[i];
      SegmentsBefore(a, b, if a[i] == '.' then i + 1 else start, i + 1);
    }
  }

  lemma {:induction false} SegmentsShift(s: string, b: string, d: nat, start: nat, i: nat)
    requires d <= |s| && s[d..] == b && start <= i <= |b|
    ensures Segments(s, d + start, d + i) == Segments(b, start, i)
    decreases |b| - i
  {
    assert s[d..][start..i] == s[d + start..d + i];
    if i < |b| {
      assert s[d + i] == b[i];
      SegmentsShift(s, b, d, if b[i] == '.' then i + 1 else start, i + 1);
    }
  }

  /** A path that goes on from `this` is read as what follows it; other paths are read whole. */
  lemma PathSegsMean(first: string, rest: string)
    requires first != "" && forall k :: 0 <= k < |first| ==> first[k] != '.'
    ensures PathSegs(first + "." + rest) == (if first == "this" then [] else [first]) + Segments(rest, 0, 0)
  {
    SegmentsAtDot(first, rest);
    SegmentsWithoutDots(first, 0);
  }

  /** A lookup answers with the innermost scope that has the path at all. */
  lemma {:induction false} SearchMeans(scopes: seq<Value>, segs: seq<string>) returns (k: int)
    ensures -1 <= k < |scopes|
    ensures forall j :: k < j < |scopes| ==> Walk(scopes[j], segs) == Undefined
    ensures if k == -1 then Search(scopes, segs) == Undefined
            else Walk(scopes[k], segs) != Undefined && Search(scopes, segs) == Walk(scopes[k], segs)
  {
    hide Walk;
    k := -1;
    if scopes != [] {
      var init := scopes[..|scopes| - 1];
      if Walk(scopes[|scopes| - 1], segs) != Undefined {
        k := |scopes| - 1;
      } else {
        k := SearchMeans(init, segs);
      }
    }
  }

  /** A path of several segments is followed one at a time, and ends in nothing once there is nothing to look in. */
  lemma {:induction false} WalkSplits(root: Value, a: seq<string>, b: seq<string>)
    ensures Walk(root, a + b) == Walk(Walk(root, a), b)
    decreases |a|
  {
    hide Member;
    if a == [] {
      assert a + b == b;
    } else if !root.Undefined? && !root.Null? {
      assert (a + b)[1..] == a[1..] + b && (a + b)[0] == a[0];
      WalkSplits(Member(root, a[0]), a[1..], b);
    }
  }

  /** One segment: a position or the length in an array, a field in an object, nothing elsewhere. */
  lemma {:induction false} MemberMeans(v: Value, name: string)
    ensures v.Arr? ==> forall k: nat :: name == Show(k) ==> Walk(v, [name]) == if k < |v.items| then v.items[k] else Undefined
    ensures v.Arr? && name == "length" ==> Walk(v, [name]) == Num(|v.items| as real)
    ensures v.Arr? && name != "length" && !IsDigits(name) ==> Walk(v, [name]) == Undefined
    ensures v.Obj? && (forall f :: f in v.fields ==> f.0 != name) ==> Walk(v, [name]) == Undefined
    ensures v.Obj? ==> forall i :: 0 <= i < |v.fields| && v.fields[i].0 == name && (forall j :: 0 <= j < i ==> v.fields[j].0 != name) ==>
              Walk(v, [name]) == v.fields[i].1
    ensures !v.Arr? && !v.Obj? ==> Walk(v, [name]) == Undefined
  {
    assert [name][1..] == [] && Walk(Member(v, name), []) == Member(v, name);
    if v.Obj? {
      forall i | 0 <= i < |v.fields| && v.fields[i].0 == name && (forall j :: 0 <= j < i ==> v.fields[j].0 != name)
        ensures FieldOf(v.fields, name) == v.fields[i].1
      {
        FieldFound(v.fields, name, i);
      }
      if forall f :: f in v.fields ==> f.0 != name { FieldMissing(v.fields, name); }
    }
  }

  lemma {:induction false} FieldFound(fields: seq<(string, Value)>, name: string, i: nat)
    requires i < |fields| && fields[i].0 == name && forall j :: 0 <= j < i ==> fields[j].0 != name
    ensures FieldOf(fields, name) == fields[i].1
  {
    if i > 0 { FieldFound(fields[1..], name, i - 1); }
  }

  lemma {:induction false} FieldMissing(fields: seq<(string, Value)>, name: string)
    requires forall f :: f in fields ==> f.0 != name
    ensures FieldOf(fields, name) == Undefined
  {
    if fields != [] { FieldMissing(fields[1..], name); }
  }

  // ---- The static scan -----------------------------------------------------------------------

  /** Keys the scan passes over: everything that begins with `this` or `@`. */
  predicate Skipped(key: string) {
    StartsWith(key, "this") || StartsWith(key, "@")
  }

  function Report(path: string): set<string> {
    if Skipped(Key(path)) then {} else {Key(path)}
  }

  /** What one tag contributes. */
  function RefOf(tag: string): set<string> {
    if IsComment(tag) || StartsWith(tag, "/") || tag == "else" || IsKnowledge(tag) then {}
    else if OpensIf(tag) then Report(tag[4..])
    else if OpensEach(tag) then Report(tag[6..])
    else if StartsWith(tag, "json ") then Report(tag[5..])
    else Report(tag)
  }

  function TokenRefs(t: Token): set<string> {
    if t.Tag? then RefOf(t.tag) else {}
  }

  function Refs(tokens: seq<Token>, i: nat, end: nat): set<string>
    requires i <= end <= |tokens|
    decreases end - i
  {
    if i == end then {} else TokenRefs(tokens[i]) + Refs(tokens, i + 1, end)
  }

  /** The scan itself: one loop over the tags, with no parser behind it. */
  method TemplateReferences(src: string) returns (refs: set<string>)
    ensures refs == Refs(Tokens(src, 0), 0, |Tokens(src, 0)|)
  {
    hide RefOf;
    var tokens := Tokenize(src);
    refs := {};
    for i := 0 to |tokens|
      invariant refs + Refs(tokens, i, |tokens|) == Refs(tokens, 0, |tokens|)
    {
      if tokens[i].Tag? { refs := refs + RefOf(tokens[i].tag); }
    }
  }

  /** The paths of a syntax tree that the scan is meant to report. */
  function TreeRefs(nodes: seq<Node>): set<string>
    decreases nodes, 1
  {
    if nodes == [] then {} else NodeRefs(nodes[0]) + TreeRefs(nodes[1..])
  }

  function NodeRefs(n: Node): set<string>
    decreases n, 1
  {
    match n
    case TextNode(_) => {}
    case Insert(path, json) => if path == "else" && !json then {} else Report(path)
    case If(path, then_, else_) => Report(path) + TreeRefs(then_) + TreeRefs(else_)
    case Each(path, body) => Report(path) + TreeRefs(body)
  }

  lemma {:induction false} RefsSplit(tokens: seq<Token>, i: nat, mid: nat, end: nat)
    requires i <= mid <= end <= |tokens|
    ensures Refs(tokens, i, end) == Refs(tokens, i, mid) + Refs(tokens, mid, end)
    decreases mid - i
  {
    hide TokenRefs;
    if i < mid {
      RefsSplit(tokens, i + 1, mid, end);
    }
  }

  lemma {:induction false} TreeRefsSplit(a: seq<Node>, b: seq<Node>)
    ensures TreeRefs(a + b) == TreeRefs(a) + TreeRefs(b)
  {
    hide NodeRefs;
    if a == [] {
      assert a + b == b;
    } else {
      assert (a + b)[1..] == a[1..] + b;
      TreeRefsSplit(a[1..], b);
    }
  }

  lemma ClosersSilent(t: Token)
    requires t in [Tag("else"), Tag("/if"), Tag("/each")]
    ensures TokenRefs(t) == {}
  {
    assert "/if"[..1] == "/" && "/each"[..1] == "/";
  }

  lemma KeyOfTrimmed(s: string)
    ensures Key(Trim(s)) == Key(s) && Report(Trim(s)) == Report(s)
  {
    TrimIdempotent(s);
  }

  /** The flat scan sees exactly the paths of the tree, though it never builds one. */
  lemma {:induction false} ScanReadsTheTree(tokens: seq<Token>, i: nat, closers: seq<string>)
    requires i <= |tokens| && ParseFrom(tokens, i, closers).Block?
    requires closers in [[], ["else", "/if"], ["/if"], ["/each"]]
    ensures Refs(tokens, i, ParseFrom(tokens, i, closers).next) == TreeRefs(ParseFrom(tokens, i, closers).nodes)
    decreases |tokens| - i, 0
  {
    hide ParseItem, TokenRefs, NodeRefs;
    if i < |tokens| {
      if Closes(tokens[i], closers) {
        ClosersSilent(tokens[i]);
      } else {
        var item := ParseItem(tokens, i);
        var b := ParseFrom(tokens, item.next, closers);
        ScanReadsTheTree(tokens, item.next, closers);
        ScanReadsItem(tokens, i);
        RefsSplit(tokens, i, item.next, b.next);
        TreeRefsSplit(item.nodes, b.nodes);
      }
    }
  }

  lemma {:induction false} ScanReadsItem(tokens: seq<Token>, i: nat)
    requires i < |tokens| && ParseItem(tokens, i).Block?
    ensures Refs(tokens, i, ParseItem(tokens, i).next) == TreeRefs(ParseItem(tokens, i).nodes)
    decreases |tokens| - i - 1, 1
  {
    hide Trim, StartsWith, ParseFrom, Report;
    var item := ParseItem(tokens, i);
    if tokens[i].Tag? && !IsComment(tokens[i].tag) && !IsKnowledge(tokens[i].tag) {
      var tag := tokens[i].tag;
      if OpensIf(tag) || OpensEach(tag) {
        OpenerRefs(tag);
        RefsSplit(tokens, i, i + 1, item.next);
        if OpensIf(tag) {
          var thenB := ParseFrom(tokens, i + 1, ["else", "/if"]);
          ScanReadsTheTree(tokens, i + 1, ["else", "/if"]);
          RefsSplit(tokens, i + 1, thenB.next, item.next);
          if thenB.closer == Some("else") {
            ScanReadsTheTree(tokens, thenB.next, ["/if"]);
          }
        } else {
          ScanReadsTheTree(tokens, i + 1, ["/each"]);
        }
      } else {
        InsertRefs(tag);
      }
    }
  }

  lemma OpenerRefs(tag: string)
    requires !IsComment(tag) && !IsKnowledge(tag)
    ensures OpensIf(tag) ==> RefOf(tag) == Report(IfPath(tag))
    ensures !OpensIf(tag) && OpensEach(tag) ==> RefOf(tag) == Report(EachPath(tag))
  {
    assert (OpensIf(tag) ==> |tag| >= 4) && (OpensEach(tag) ==> |tag| >= 6);
    hide Report, Trim, StartsWith, IsComment, IsKnowledge;
    if OpensIf(tag) {
      KeyOfTrimmed(tag[4..]);
    } else if OpensEach(tag) {
      KeyOfTrimmed(tag[6..]);
    }
  }

  lemma {:induction false} InsertRefs(tag: string)
    requires !IsComment(tag) && !IsKnowledge(tag) && !IsBlockTag(tag)
    ensures RefOf(tag) == NodeRefs(InsertFor(tag))
  {
    hide Report, Trim, IsComment, IsKnowledge;
    assert StartsWith(tag, "json ") ==> tag[0] == 'j' && tag != "else";
    hide StartsWith;
    if StartsWith(tag, "json ") {
      KeyOfTrimmed(tag[5..]);
    }
  }

  // ---- What the scan guarantees --------------------------------------------------------------

  /** Two contexts agree on a set of reported paths. */
  ghost predicate Agree(refs: set<string>, c: Value, d: Value) {
    forall key :: key in refs ==> Walk(c, PathSegs(key)) == Walk(d, PathSegs(key))
  }

  /** Names that each loop binds itself. */
  predicate BoundByLoop(path: string) {
    Key(path) in ["this", "@index", "@first", "@last"]
  }

  predicate PathCovered(path: string, inLoop: bool) {
    !Skipped(Key(path)) || (inLoop && BoundByLoop(path))
  }

  /** No lookup escapes the scan: every path is reported, or bound by an enclosing loop. */
  predicate Covered(nodes: seq<Node>, inLoop: bool)
    decreases nodes, 1
  {
    nodes == [] || (NodeCovered(nodes[0], inLoop) && Covered(nodes[1..], inLoop))
  }

  predicate NodeCovered(n: Node, inLoop: bool)
    decreases n, 1
  {
    match n
    case TextNode(_) => true
    case Insert(path, json) => PathCovered(path, inLoop) && (path == "else" ==> json)
    case If(path, then_, else_) => PathCovered(path, inLoop) && Covered(then_, inLoop) && Covered(else_, inLoop)
    case Each(path, body) => PathCovered(path, inLoop) && Covered(body, true)
  }

  lemma CoveredOne(n: Node, inLoop: bool)
    ensures Covered([n], inLoop) <==> NodeCovered(n, inLoop)
  {
    assert [n][1..] == [] && Covered([n][1..], inLoop);
  }

  /** A loop that inserts its item, or the position in it, is covered by the path it runs over. */
  lemma LoopCovered(path: string, name: string)
    requires !("this" <= Key(path)) && !("@" <= Key(path)) && name in ["this", "@index", "@first", "@last"]
    ensures Covered([Each(path, [Insert(name, false)])], false)
  {
    if name == "this" { assert Key("this") == "this"; } else { LoopNameIsKey(name); }
    assert name != "else" by { assert name[0] != 'e'; }
    assert !Skipped(Key(path));
    hide Key, Skipped;
    CoveredOne(Insert(name, false), true);
    CoveredOne(Each(path, [Insert(name, false)]), false);
  }

  /** The scopes of an enclosing loop: the context at the bottom, then each loop's own names and item. */
  ghost predicate LoopScopes(scopes: seq<Value>) {
    |scopes| >= 3 && exists i: nat, n: nat :: scopes[|scopes| - 2] == Meta(i, n)
  }

  /** Scopes that differ at most in the context at the bottom. */
  ghost predicate SameAbove(s: seq<Value>, t: seq<Value>) {
    |s| == |t| && s != [] && forall k :: 1 <= k < |s| ==> s[k] == t[k]
  }

  lemma {:induction false} SearchAgrees(s: seq<Value>, t: seq<Value>, segs: seq<string>)
    requires SameAbove(s, t) && Walk(s[0], segs) == Walk(t[0], segs)
    ensures Search(s, segs) == Search(t, segs)
  {
    hide Walk;
    if |s| > 1 {
      SearchAgrees(s[..|s| - 1], t[..|t| - 1], segs);
    } else {
      assert Search(s[..0], segs) == Search(t[..0], segs);
    }
  }

  lemma PlainName(name: string)
    requires name in ["@index", "@first", "@last"]
    ensures PathSegs(name) == [name]
  {
    SegmentsWithoutDots(name, 0);
  }

  lemma {:induction false} SegmentsWithoutDots(s: string, i: nat)
    requires i <= |s| && forall k :: 0 <= k < |s| ==> s[k] != '.'
    ensures Segments(s, 0, i) == if s == "" then [] else [s]
    decreases |s| - i
  {
    if i < |s| {
      SegmentsWithoutDots(s, i + 1);
    } else {
      assert s[0..|s|] == s;
    }
  }

  lemma MetaValue(name: string, i: nat, n: nat)
    requires name in ["@index", "@first", "@last"]
    ensures Walk(Meta(i, n), [name]) ==
            if name == "@index" then Num(i as real) else if name == "@first" then Bool(i == 0) else Bool(i == n - 1)
  {
    var fields := Meta(i, n).fields;
    var k := if name == "@index" then 0 else if name == "@first" then 1 else 2;
    assert "@index"[1] != "@first"[1] && "@index"[1] != "@last"[1] && "@first"[1] != "@last"[1];
    assert fields[0].0 == "@index" && fields[1].0 == "@first" && fields[2].0 == "@last";
    FieldFound(fields, name, k);
    assert [name][1..] == [] && Walk(Member(Meta(i, n), name), []) == FieldOf(fields, name);
  }

  lemma LoopNamesResolve(path: string, s: seq<Value>, t: seq<Value>)
    requires BoundByLoop(path) && SameAbove(s, t) && LoopScopes(s)
    ensures Resolve(path, s) == Resolve(path, t)
  {
    hide Walk, Meta, Trim, StartsWith;
    var key := Key(path);
    if key != "this" {
      PlainName(key);
      var i: nat, n: nat :| s[|s| - 2] == Meta(i, n);
      MetaValue(key, i, n);
      var s', t' := s[..|s| - 1], t[..|t| - 1];
      assert Search(s', [key]) == Walk(s[|s| - 2], [key]);
      assert Search(t', [key]) == Walk(t[|t| - 2], [key]);
    }
  }

  lemma PathResolves(path: string, inLoop: bool, s: seq<Value>, t: seq<Value>)
    requires PathCovered(path, inLoop) && SameAbove(s, t) && (inLoop ==> LoopScopes(s))
    requires Agree(Report(path), s[0], t[0])
    ensures Resolve(path, s) == Resolve(path, t)
  {
    assert Skipped("this");
    hide Walk, Meta, Trim, StartsWith, LoopScopes;
    if Skipped(Key(path)) {
      LoopNamesResolve(path, s, t);
    } else {
      var key := Key(path);
      assert key in Report(path);
      SearchAgrees(s, t, PathSegs(key));
      if key == "." {
        assert Segments(".", 1, 1) == [] && Segments(".", 0, 0) == [];
        assert PathSegs(".") == [];
        assert s[|s| - 1] == t[|t| - 1];
      }
    }
  }

  lemma AgreeSubset(refs: set<string>, all: set<string>, c: Value, d: Value)
    requires refs <= all && Agree(all, c, d)
    ensures Agree(refs, c, d)
  {
  }

  lemma LoopScopesOf(s: seq<Value>, i: nat, n: nat, item: Value)
    requires s != []
    ensures LoopScopes(s + [Meta(i, n), item])
  {
    var t := s + [Meta(i, n), item];
    assert t[|t| - 2] == Meta(i, n);
  }

  /** Rendering depends on the context only through the reported paths, under any nesting of loops and branches. */
  lemma {:induction false} RenderAgrees(pr: Printer, nodes: seq<Node>, inLoop: bool, s: seq<Value>, t: seq<Value>)
    requires Covered(nodes, inLoop) && SameAbove(s, t) && (inLoop ==> LoopScopes(s))
    requires Agree(TreeRefs(nodes), s[0], t[0])
    ensures Render(pr, nodes, s) == Render(pr, nodes, t)
    decreases nodes, 1
  {
    assert s != [] && t != [];
    hide NodeCovered, NodeRefs, RenderNode, Agree, LoopScopes, SameAbove;
    if nodes != [] {
      AgreeSubset(NodeRefs(nodes[0]), TreeRefs(nodes), s[0], t[0]);
      AgreeSubset(TreeRefs(nodes[1..]), TreeRefs(nodes), s[0], t[0]);
      NodeAgrees(pr, nodes[0], inLoop, s, t);
      RenderAgrees(pr, nodes[1..], inLoop, s, t);
    }
  }

  lemma {:induction false} NodeAgrees(pr: Printer, n: Node, inLoop: bool, s: seq<Value>, t: seq<Value>)
    requires NodeCovered(n, inLoop) && SameAbove(s, t) && (inLoop ==> LoopScopes(s))
    requires Agree(NodeRefs(n), s[0], t[0])
    ensures RenderNode(pr, n, s) == RenderNode(pr, n, t)
    decreases n, 1
  {
    hide Covered, Render, TreeRefs, Agree, LoopScopes, Report, PathCovered, Resolve, Stringify, RenderEach, Items;
    if !n.TextNode? {
      AgreeSubset(Report(n.path), NodeRefs(n), s[0], t[0]);
      PathResolves(n.path, inLoop, s, t);
    }
    match n
    case TextNode(_) =>
    case Insert(_, _) =>
    case If(_, then_, else_) =>
      AgreeSubset(TreeRefs(then_), NodeRefs(n), s[0], t[0]);
      AgreeSubset(TreeRefs(else_), NodeRefs(n), s[0], t[0]);
      RenderAgrees(pr, then_, inLoop, s, t);
      RenderAgrees(pr, else_, inLoop, s, t);
    case Each(path, body) =>
      AgreeSubset(TreeRefs(body), NodeRefs(n), s[0], t[0]);
      EachAgrees(pr, body, Items(Resolve(path, s)), 0, s, t);
  }

  lemma {:induction false} EachAgrees(pr: Printer, body: seq<Node>, items: seq<Value>, i: nat, s: seq<Value>, t: seq<Value>)
    requires Covered(body, true) && SameAbove(s, t) && i <= |items|
    requires Agree(TreeRefs(body), s[0], t[0])
    ensures RenderEach(pr, body, items, i, s) == RenderEach(pr, body, items, i, t)
    decreases body, 2, |items| - i
  {
    hide Covered, TreeRefs, Agree, Meta, Render, LoopScopes;
    if i < |items| {
      var inner := [Meta(i, |items|), items[i]];
      LoopScopesOf(s, i, |items|, items[i]);
      assert SameAbove(s + inner, t + inner);
      RenderAgrees(pr, body, true, s + inner, t + inner);
      EachAgrees(pr, body, items, i + 1, s, t);
    }
  }

  /** Static references suffice: what the scan reports decides what the template renders. */
  ghost predicate ScanSuffices(pr: Printer, nodes: seq<Node>) {
    forall c, d :: Agree(TreeRefs(nodes), c, d) ==> Render(pr, nodes, [c]) == Render(pr, nodes, [d])
  }

  lemma {:induction false} CoveredScanSuffices(pr: Printer, nodes: seq<Node>)
    requires Covered(nodes, false)
    ensures ScanSuffices(pr, nodes)
  {
    hide Covered, Agree, TreeRefs, Render;
    forall c, d | Agree(TreeRefs(nodes), c, d) ensures Render(pr, nodes, [c]) == Render(pr, nodes, [d]) {
      RenderAgrees(pr, nodes, false, [c], [d]);
    }
  }

  /** From source text to rendered text, through the references the scan reads off the source. */
  lemma {:induction false} StaticReferencesSound(pr: Printer, src: string, c: Value, d: Value)
    requires var tokens := Tokens(src, 0);
             ParseFrom(tokens, 0, []).Block? && Covered(ParseFrom(tokens, 0, []).nodes, false) && Agree(Refs(tokens, 0, |tokens|), c, d)
    ensures var nodes := ParseFrom(Tokens(src, 0), 0, []).nodes;
            Render(pr, nodes, [c]) == Render(pr, nodes, [d])
  {
    hide ParseFrom, Covered, Agree, TreeRefs, Render, Refs;
    var tokens := Tokens(src, 0);
    ScanReadsTheTree(tokens, 0, []);
    CoveredScanSuffices(pr, ParseFrom(tokens, 0, []).nodes);
  }

  // ---- Where the scan falls short ------------------------------------------------------------

  /** A value that has `leaf` at the end of a path. */
  function Nest(segs: seq<string>, leaf: Value): Value {
    if segs == [] then leaf else Obj([(segs[0], Nest(segs[1..], leaf))])
  }

  lemma {:induction false} NestHolds(segs: seq<string>, leaf: Value)
    ensures Walk(Nest(segs, leaf), segs) == leaf
  {
    if segs != [] {
      NestHolds(segs[1..], leaf);
    }
  }

  /** For a template that is one insert of a named path: the scan suffices unless it passes over the path. */
  lemma InsertScanIff(pr: Printer, path: string)
    requires Key(path) !in ["this", "."] && PathSegs(Key(path)) != []
    ensures ScanSuffices(pr, [Insert(path, false)]) <==> !("this" <= Key(path)) && !("@" <= Key(path)) && path != "else"
  {
    assert Skipped(Key(path)) <==> "this" <= Key(path) || "@" <= Key(path);
    hide Skipped, Trim, PathSegs;
    var nodes := [Insert(path, false)];
    if !Skipped(Key(path)) && path != "else" {
      assert nodes[1..] == [];
      assert Covered(nodes[1..], false);
      CoveredScanSuffices(pr, nodes);
    } else {
      var segs := PathSegs(Key(path));
      var c, d := Nest(segs, Str("a")), Nest(segs, Str("b"));
      NestHolds(segs, Str("a"));
      NestHolds(segs, Str("b"));
      InsertRenders(pr, path, c, "a");
      InsertRenders(pr, path, d, "b");
      assert Agree(TreeRefs(nodes), c, d);
    }
  }

  lemma InsertRenders(pr: Printer, path: string, c: Value, s: string)
    requires Key(path) !in ["this", "."] && PathSegs(Key(path)) != [] && Walk(c, PathSegs(Key(path))) == Str(s)
    ensures Render(pr, [Insert(path, false)], [c]) == s
  {
    hide Trim, PathSegs, Walk;
    var nodes := [Insert(path, false)];
    assert nodes[1..] == [];
    assert Render(pr, [], [c]) == "";
    assert Search([c], PathSegs(Key(path))) == Str(s);
    assert RenderNode(pr, nodes[0], [c]) == s;
  }
}
