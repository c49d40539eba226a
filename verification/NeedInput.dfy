/** Need-input requests on a node: the requests, the tags derived from them, and concurrent callers. */
module NeedInput {
  import opened Basics
  import opened Walks

  // ---- Tags ----------------------------------------------------------------------------------

  const NEED_INPUT := "need-input"

  /** A request; an absent role or username is empty. */
  datatype Request = Request(id: string, role: string, username: string, gate: bool)

  predicate IsNeedInputTag(tag: string) {
    tag == NEED_INPUT || (|NEED_INPUT| < |tag| && tag[..|NEED_INPUT| + 1] == NEED_INPUT + ":")
  }

  /** The tags of one request, in the order they are added. */
  function RequestTags(r: Request): (tags: seq<string>)
    ensures forall t :: t in tags ==> IsNeedInputTag(t)
  {
    var role, user := NEED_INPUT + ":role=" + r.role, NEED_INPUT + ":username=" + r.username;
    assert role[..|NEED_INPUT| + 1] == NEED_INPUT + ":" && user[..|NEED_INPUT| + 1] == NEED_INPUT + ":";
    [NEED_INPUT] + (if r.role == "" then [] else [role]) + if r.username == "" then [] else [user]
  }

  /** `need-input`, and one tag each for a role and a username that are asked for. */
  lemma RequestTagsMean(r: Request)
    ensures
      var role, user := "need-input:role=" + r.role, "need-input:username=" + r.username;
      RequestTags(r) == if r.role == "" then (if r.username == "" then ["need-input"] else ["need-input", user])
                        else if r.username == "" then ["need-input", role] else ["need-input", role, user]
    ensures forall tag :: IsNeedInputTag(tag) <==> tag == "need-input" || "need-input:" <= tag
  {
    assert NEED_INPUT + ":role=" == "need-input:role=" && NEED_INPUT + ":username=" == "need-input:username=";
    assert NEED_INPUT + ":" == "need-input:";
    forall tag: string ensures IsNeedInputTag(tag) <==> tag == "need-input" || "need-input:" <= tag {
      if "need-input:" <= tag { assert tag[..|NEED_INPUT| + 1] == "need-input:"; }
    }
  }

  /** The tags a list of open requests calls for, as a set. */
  ghost predicate CalledFor(open: seq<Request>, tag: string) {
    exists r :: r in open && tag in RequestTags(r)
  }

  /** A list with later repetitions dropped: what `[...new Set(s)]` keeps. */
  function Dedup(s: seq<string>): (r: seq<string>)
    ensures forall x :: x in r <==> x in s
  {
    if s == [] then []
    else
      var n := |s| - 1;
      assert s == s[..n] + [s[n]];
      if s[n] in s[..n] then Dedup(s[..n]) else Dedup(s[..n]) + [s[n]]
  }

  lemma {:induction false} DedupDistinct(s: seq<string>)
    ensures Distinct(Dedup(s))
  {
    if s != [] {
      var n := |s| - 1;
      DedupDistinct(s[..n]);
      AppendDistinct(Dedup(s[..n]), s[n]);
    }
  }

  lemma {:induction false} DedupAppend(s: seq<string>, x: string)
    ensures Dedup(s + [x]) == if x in s then Dedup(s) else Dedup(s) + [x]
  {
    assert (s + [x])[..|s|] == s;
  }

  function AllRequestTags(open: seq<Request>): (tags: seq<string>)
    ensures forall t :: t in tags <==> exists r :: r in open && t in RequestTags(r)
    ensures forall t :: t in tags ==> IsNeedInputTag(t)
  {
    if open == [] then []
    else
      var n := |open| - 1;
      assert open == open[..n] + [open[n]];
      AllRequestTags(open[..n]) + RequestTags(open[n])
  }

  lemma TagsOfOneRequest(r: Request)
    ensures AllRequestTags([r]) == RequestTags(r)
  {
    assert [r][..0] == [] && AllRequestTags([]) == [];
  }

  lemma {:induction false} AllRequestTagsSplit(a: seq<Request>, b: seq<Request>)
    ensures AllRequestTags(a + b) == AllRequestTags(a) + AllRequestTags(b)
  {
    hide RequestTags;
    if b == [] {
      assert a + b == a;
    } else {
      assert (a + b)[..|a + b| - 1] == a + b[..|b| - 1];
      AllRequestTagsSplit(a, b[..|b| - 1]);
    }
  }

  /** The tags that are not derived from requests. */
  function OtherTags(tags: seq<string>): (r: seq<string>)
    ensures forall t :: t in r <==> t in tags && !IsNeedInputTag(t)
  {
    if tags == [] then []
    else
      var n := |tags| - 1;
      assert tags == tags[..n] + [tags[n]];
      OtherTags(tags[..n]) + if IsNeedInputTag(tags[n]) then [] else [tags[n]]
  }

  lemma OtherTagsOfOne(tag: string)
    ensures OtherTags([tag]) == if IsNeedInputTag(tag) then [] else [tag]
  {
    assert [tag][..0] == [] && OtherTags([]) == [];
  }

  lemma {:induction false} OtherTagsSplit(a: seq<string>, b: seq<string>)
    ensures OtherTags(a + b) == OtherTags(a) + OtherTags(b)
  {
    hide IsNeedInputTag;
    if b == [] {
      assert a + b == a;
    } else {
      assert (a + b)[..|a + b| - 1] == a + b[..|b| - 1];
      OtherTagsSplit(a, b[..|b| - 1]);
    }
  }

  function WithTags(tags: seq<string>, open: seq<Request>): seq<string> {
    Dedup(OtherTags(tags) + Dedup(AllRequestTags(open)))
  }

  method AddAll(have: seq<string>, more: seq<string>) returns (out: seq<string>)
    requires have == Dedup(have)
    ensures out == Dedup(have + more)
  {
    hide Dedup;
    out := have;
    assert have + more[..0] == have;
    for i := 0 to |more|
      invariant out == Dedup(have + more[..i])
    {
      DedupAppend(have + more[..i], more[i]);
      assert have + more[..i] + [more[i]] == have + more[..i + 1];
      if more[i] !in out { out := out + [more[i]]; }
    }
    assert more[..|more|] == more;
  }

  lemma {:induction false} DedupTwice(s: seq<string>)
    ensures Dedup(Dedup(s)) == Dedup(s)
  {
    if s != [] {
      var n := |s| - 1;
      DedupTwice(s[..n]);
      if s[n] !in s[..n] {
        DedupAppend(Dedup(s[..n]), s[n]);
      }
    }
  }

  lemma {:induction false} DedupPrefix(s: seq<string>, t: seq<string>)
    ensures Dedup(Dedup(s) + t) == Dedup(s + t)
  {
    hide Dedup;
    if t == [] {
      assert s + t == s && Dedup(s) + t == Dedup(s);
      DedupTwice(s);
    } else {
      var u, x := t[..|t| - 1], t[|t| - 1];
      assert t == u + [x];
      DedupPrefix(s, u);
      DedupPrefixStep(s, u, x);
    }
  }

  lemma {:induction false} DedupPrefixStep(s: seq<string>, u: seq<string>, x: string)
    requires Dedup(Dedup(s) + u) == Dedup(s + u)
    ensures Dedup(Dedup(s) + (u + [x])) == Dedup(s + (u + [x]))
  {
    hide Dedup;
    DedupAppend(s + u, x);
    DedupAppend(Dedup(s) + u, x);
    assert s + (u + [x]) == (s + u) + [x] && Dedup(s) + (u + [x]) == (Dedup(s) + u) + [x];
  }

  method NeedInputTags(open: seq<Request>) returns (tags: seq<string>)
    ensures tags == Dedup(AllRequestTags(open))
  {
    tags := [];
    for i := 0 to |open|
      invariant tags == Dedup(AllRequestTags(open[..i]))
    {
      assert open[..i + 1][..i] == open[..i];
      DedupTwice(AllRequestTags(open[..i]));
      DedupPrefix(AllRequestTags(open[..i]), RequestTags(open[i]));
      tags := AddAll(tags, RequestTags(open[i]));
    }
    assert open[..|open|] == open;
  }

  method WithNeedInputTags(tags: seq<string>, open: seq<Request>) returns (out: seq<string>)
    ensures out == WithTags(tags, open)
  {
    var needed := NeedInputTags(open);
    assert [] + (OtherTags(tags) + needed) == OtherTags(tags) + needed;
    out := AddAll([], OtherTags(tags) + needed);
  }

  /** Recomputed tags are the other tags and exactly the tags the open requests call for, each once. */
  lemma WithTagsMeans(tags: seq<string>, open: seq<Request>)
    ensures Distinct(WithTags(tags, open))
    ensures forall t :: t in WithTags(tags, open) <==> (t in tags && !IsNeedInputTag(t)) || CalledFor(open, t)
  {
    DedupDistinct(OtherTags(tags) + Dedup(AllRequestTags(open)));
  }

  // ---- Who may resolve -----------------------------------------------------------------------

  datatype Caller = Caller(service: bool, admin: bool, gateScope: bool, handle: string, roles: set<string>)

  predicate Targets(r: Request, who: Caller) {
    || (r.role == "" && r.username == "")
    || (r.username != "" && r.username == who.handle)
    || (r.role != "" && r.role in who.roles)
  }

  /** A gate request takes a verdict and the gate scope; otherwise services, admins and the people targeted may resolve. */
  predicate MayResolve(r: Request, who: Caller, verdict: bool) {
    && (r.gate ==> verdict && who.gateScope)
    && (who.service || (who.admin && !r.gate) || Targets(r, who))
  }

  datatype Resolution = Resolution(request: Request, who: Caller, verdict: bool)

  // ---- The stored node -----------------------------------------------------------------------

  datatype Node = Node(tags: seq<string>, open: seq<Request>, history: seq<Resolution>)

  function Tagged(n: Node, r: Request): Node {
    var open := n.open + [r];
    n.(open := open, tags := WithTags(n.tags, open))
  }

  /** The open requests but those with an id. */
  function Without(open: seq<Request>, id: string): (r: seq<Request>)
    ensures forall x :: x in r <==> x in open && x.id != id
  {
    if open == [] then []
    else
      var n := |open| - 1;
      assert open == open[..n] + [open[n]];
      Without(open[..n], id) + if open[n].id == id then [] else [open[n]]
  }

  lemma WithoutOne(r: Request, id: string)
    ensures Without([r], id) == if r.id == id then [] else [r]
  {
    assert [r][..0] == [] && Without([], id) == [];
  }

  lemma {:induction false} WithoutSplits(a: seq<Request>, b: seq<Request>, id: string)
    ensures Without(a + b, id) == Without(a, id) + Without(b, id)
  {
    if b == [] {
      assert a + b == a;
    } else {
      assert (a + b)[..|a + b| - 1] == a + b[..|b| - 1];
      WithoutSplits(a, b[..|b| - 1], id);
    }
  }

  predicate IsOpen(n: Node, id: string) {
    exists r :: r in n.open && r.id == id
  }

  ghost predicate DistinctIds(open: seq<Request>) {
    forall i, j :: 0 <= i < j < |open| ==> open[i].id != open[j].id
  }

  function Resolved(n: Node, res: Resolution): Node {
    var open := Without(n.open, res.request.id);
    Node(WithTags(n.tags, open), open, n.history + [res])
  }

  function Patched(n: Node, tags: seq<string>): Node {
    n.(tags := WithTags(tags, n.open))
  }

  datatype Refusal = NotFound | AlreadyResolved | NeedsVerdict | Forbidden
  datatype Checked = Go(resolution: Resolution) | Refused(why: Refusal)

  /** The stored record: each method is one transaction holding the row lock. */
  class Record {
    var node: Node

    /** A new node: need-input tags cannot be supplied from outside. */
    constructor (tags: seq<string>)
      ensures node == Node(OtherTags(tags), [], [])
    {
      node := Node(OtherTags(tags), [], []);
    }

    method TagLocked(r: Request)
      modifies this
      ensures node == Tagged(old(node), r)
      ensures node.open == old(node).open + [r] && node.history == old(node).history
    {
      var open := node.open + [r];
      var tags := WithNeedInputTags(node.tags, open);
      node := node.(open := open, tags := tags);
    }

    /** What a caller decides from a snapshot, before taking the lock. */
    method CheckResolve(id: string, who: Caller, verdict: bool) returns (c: Checked)
      ensures c.Go? ==> c.resolution.request in node.open && c.resolution.request.id == id
      ensures c.Go? ==> MayResolve(c.resolution.request, who, verdict) && c.resolution.who == who && c.resolution.verdict == verdict
      ensures c == Refused(NotFound) || c == Refused(AlreadyResolved) <==> forall r :: r in node.open ==> r.id != id
      ensures c == Refused(AlreadyResolved) <==> !IsOpen(node, id) && exists h :: h in node.history && h.request.id == id
      ensures DistinctIds(node.open) ==> forall r :: r in node.open && r.id == id ==>
                && (c.Go? <==>
                      && (r.gate ==> verdict && who.gateScope)
                      && (|| who.service || (who.admin && !r.gate) || (r.role == "" && r.username == "")
                          || (r.username != "" && r.username == who.handle) || (r.role != "" && r.role in who.roles)))
                && (c == Refused(NeedsVerdict) <==> r.gate && !verdict)
    {
      var i := 0;
      while i < |node.open| && node.open[i].id != id
        invariant i <= |node.open| && forall k :: 0 <= k < i ==> node.open[k].id != id
      {
        i := i + 1;
      }
      if i == |node.open| {
        if exists h :: h in node.history && h.request.id == id { return Refused(AlreadyResolved); }
        return Refused(NotFound);
      }
      var r := node.open[i];
      if r.gate && !verdict { return Refused(NeedsVerdict); }
      if r.gate && !who.gateScope { return Refused(Forbidden); }
      var bypass := who.service || (who.admin && !r.gate);
      if !bypass && !Targets(r, who) { return Refused(Forbidden); }
      return Go(Resolution(r, who, verdict));
    }

    method ResolveLocked(res: Resolution) returns (ok: bool)
      modifies this
      ensures ok <==> exists r :: r in old(node).open && r.id == res.request.id
      ensures ok ==> node.history == old(node).history + [res]
      ensures forall r :: r in node.open <==> r in old(node).open && r.id != res.request.id
      ensures node == if ok then Resolved(old(node), res) else old(node)
    {
      ok := exists r :: r in node.open && r.id == res.request.id;
      if ok {
        var remaining := Without(node.open, res.request.id);
        var tags := WithNeedInputTags(node.tags, remaining);
        node := Node(tags, remaining, node.history + [res]);
      }
    }

    method Patch(tags: seq<string>)
      modifies this
      ensures node == Patched(old(node), tags) && node.open == old(node).open && node.history == old(node).history
    {
      var out := WithNeedInputTags(tags, node.open);
      node := node.(tags := out);
    }
  }

  // ---- Concurrent callers --------------------------------------------------------------------

  /**
   * The node, the requests ever stored on it by id, and the calls under way: requests minted but not stored
   * yet, and resolutions checked against a snapshot that may since have grown old.
   */
  datatype World = World(node: Node, created: map<string, Request>, tagging: set<Request>, resolving: set<Resolution>)

  datatype Action =
    | Mint(r: Request)
    | StoreTag(r: Request)
    | Check(id: string, who: Caller, verdict: bool)
    | StoreResolution(res: Resolution)
    | Abandon(calls: set<Request>, resolutions: set<Resolution>)
    | Retag(tags: seq<string>)

  /** Request ids are random; a new one is taken to differ from all before it. */
  ghost predicate IsNew(w: World, id: string) {
    id !in w.created && forall r :: r in w.tagging ==> r.id != id
  }

  ghost predicate Step(w: World, a: Action, v: World) {
    match a
    case Mint(r) => IsNew(w, r.id) && v == w.(tagging := w.tagging + {r})
    case StoreTag(r) =>
      r in w.tagging && v == w.(node := Tagged(w.node, r), created := w.created[r.id := r], tagging := w.tagging - {r})
    case Check(id, who, verdict) =>
      exists r :: r in w.node.open && r.id == id && MayResolve(r, who, verdict)
                  && v == w.(resolving := w.resolving + {Resolution(r, who, verdict)})
    case StoreResolution(res) =>
      res in w.resolving &&
      v == w.(node := if IsOpen(w.node, res.request.id) then Resolved(w.node, res) else w.node, resolving := w.resolving - {res})
    case Abandon(calls, resolutions) => v == w.(tagging := w.tagging - calls, resolving := w.resolving - resolutions)
    case Retag(tags) => v == w.(node := Patched(w.node, tags))
  }

  ghost predicate Started(w: World) {
    w.node.open == [] && w.node.history == [] && w.created == map[] && w.tagging == {} && w.resolving == {}
    && forall t :: t in w.node.tags ==> !IsNeedInputTag(t)
  }

  /** Stored requests are unaltered, each open or resolved but not both, and none twice in either list. */
  ghost predicate Conserved(w: World) {
    && (forall r :: r in w.node.open ==> r.id in w.created && w.created[r.id] == r)
    && (forall h :: h in w.node.history ==> h.request.id in w.created && w.created[h.request.id] == h.request)
    && (forall id :: id in w.created ==> (w.created[id] in w.node.open <==> !InHistory(w.node, id)))
    && (forall id :: id in w.created ==> w.created[id].id == id)
    && DistinctIds(w.node.open)
    && (forall i, j :: 0 <= i < j < |w.node.history| ==> w.node.history[i].request.id != w.node.history[j].request.id)
  }

  ghost predicate InHistory(n: Node, id: string) {
    exists h :: h in n.history && h.request.id == id
  }

  /** The need-input tags of the node are exactly those its open requests call for. */
  ghost predicate TagsDerived(n: Node) {
    forall t :: IsNeedInputTag(t) ==> (t in n.tags <==> CalledFor(n.open, t))
  }

  ghost predicate CallsOk(w: World) {
    && (forall r :: r in w.tagging ==> r.id !in w.created)
    && (forall r, q :: r in w.tagging && q in w.tagging && r.id == q.id ==> r == q)
    && forall res :: res in w.resolving ==> ResolutionOk(w, res)
  }

  /** A resolution speaks of a request that was stored, by someone who may resolve it. */
  ghost predicate ResolutionOk(w: World, res: Resolution) {
    res.request.id in w.created && w.created[res.request.id] == res.request && MayResolve(res.request, res.who, res.verdict)
  }

  ghost predicate Inv(w: World) {
    && Conserved(w) && TagsDerived(w.node) && CallsOk(w)
    && forall h :: h in w.node.history ==> MayResolve(h.request, h.who, h.verdict)
  }

  lemma TagsRederived(tags: seq<string>, n: Node)
    requires n.tags == WithTags(tags, n.open)
    ensures TagsDerived(n)
  {
    hide WithTags;
    WithTagsMeans(tags, n.open);
  }

  lemma {:induction false} StoreTagKeeps(w: World, r: Request, v: World)
    requires Inv(w) && Step(w, StoreTag(r), v)
    ensures Inv(v)
  {
    hide WithTags, RequestTags, MayResolve, TagsDerived;
    assert r.id !in w.created && r in v.node.open by {
      assert v.node.open[|w.node.open|] == r;
    }
    assert !InHistory(w.node, r.id);
    TagsRederived(w.node.tags, v.node);
    assert forall i :: 0 <= i < |w.node.open| ==> w.node.open[i] in w.node.open;
  }

  lemma {:induction false} WithoutDistinct(open: seq<Request>, id: string)
    requires DistinctIds(open)
    ensures DistinctIds(Without(open, id))
  {
    if open != [] {
      var n := |open| - 1;
      WithoutDistinct(open[..n], id);
      forall q | q in open[..n] ensures q.id != open[n].id {
        var k :| 0 <= k < n && open[k] == q;
      }
    }
  }

  lemma {:induction false} HistoryAfter(n: Node, res: Resolution, id: string)
    ensures InHistory(Resolved(n, res), id) <==> InHistory(n, id) || id == res.request.id
  {
    var after := Resolved(n, res);
    assert after.history[|n.history|] == res;
    if InHistory(n, id) {
      var h :| h in n.history && h.request.id == id;
      assert h in after.history;
    }
  }

  lemma {:induction false} ResolvedConserves(w: World, res: Resolution, v: World)
    requires Conserved(w) && res.request in w.node.open && v.node == Resolved(w.node, res) && v.created == w.created
    ensures Conserved(v)
  {
    hide WithTags, MayResolve, InHistory;
    var id := res.request.id;
    WithoutDistinct(w.node.open, id);
    forall k ensures InHistory(v.node, k) <==> InHistory(w.node, k) || k == id {
      HistoryAfter(w.node, res, k);
    }
    forall i | 0 <= i < |w.node.history| ensures w.node.history[i].request.id != id {
      InHistoryAt(w.node, i);
    }
    var before, after := w.node.history, v.node.history;
    forall i, j | 0 <= i < j < |after| ensures after[i].request.id != after[j].request.id {
      assert after[i] == before[i];
      if j < |before| {
        assert after[j] == before[j];
      } else {
        assert after[j] == res;
      }
    }
    forall k | k in v.created ensures v.created[k] in v.node.open <==> !InHistory(v.node, k) {
      assert w.created[k].id == k;
    }
  }

  lemma InHistoryAt(n: Node, i: nat)
    requires i < |n.history|
    ensures InHistory(n, n.history[i].request.id)
  {
    assert n.history[i] in n.history;
  }

  lemma {:induction false} StoreResolutionKeeps(w: World, res: Resolution, v: World)
    requires Inv(w) && Step(w, StoreResolution(res), v)
    ensures Inv(v)
  {
    hide WithTags, RequestTags, MayResolve, TagsDerived, Conserved;
    assert ResolutionOk(w, res);
    if IsOpen(w.node, res.request.id) {
      OpenIsCreated(w, res);
      ResolvedConserves(w, res, v);
      TagsRederived(w.node.tags, v.node);
    } else {
      assert Conserved(v) by { SameConserved(w, v); }
    }
  }

  lemma OpenIsCreated(w: World, res: Resolution)
    requires Conserved(w) && ResolutionOk(w, res) && IsOpen(w.node, res.request.id)
    ensures res.request in w.node.open
  {
  }

  lemma SameConserved(w: World, v: World)
    requires Conserved(w) && v.node == w.node && v.created == w.created
    ensures Conserved(v)
  {
  }

  lemma {:induction false} RetagKeeps(w: World, tags: seq<string>, v: World)
    requires Inv(w) && Step(w, Retag(tags), v)
    ensures Inv(v)
  {
    hide WithTags, RequestTags, MayResolve, TagsDerived;
    TagsRederived(tags, v.node);
  }

  lemma {:induction false} StepKeeps(w: World, a: Action, v: World)
    requires Inv(w) && Step(w, a, v)
    ensures Inv(v)
  {
    match a
    case Mint(r) =>
    case StoreTag(r) => StoreTagKeeps(w, r, v);
    case Check(_, _, _) =>
    case StoreResolution(res) => StoreResolutionKeeps(w, res, v);
    case Abandon(_, _) =>
    case Retag(tags) => RetagKeeps(w, tags, v);
  }

  /** One step of the world: a mint, a locked transaction, a check against a snapshot, or a call given up. */
  ghost function Next(): (World, World) -> bool {
    (w: World, v: World) => exists a :: Step(w, a, v)
  }

  /**
   * In every state of every run: each request ever stored is open or in the history, exactly one of the two and
   * once, unaltered; who resolved it was entitled to; and the need-input tags are those of the open requests.
   */
  lemma RunsConserveRequests(start: World, w: World)
    requires Started(start) && Reaches(Next(), start, w)
    ensures Conserved(w) && TagsDerived(w.node)
    ensures forall h :: h in w.node.history ==>
              && (h.request.gate ==> h.verdict && h.who.gateScope)
              && (|| h.who.service || (h.who.admin && !h.request.gate)
                  || (h.request.role == "" && h.request.username == "")
                  || (h.request.username != "" && h.request.username == h.who.handle)
                  || (h.request.role != "" && h.request.role in h.who.roles))
  {
    hide Conserved, TagsDerived, CallsOk;
    StartedInv(start);
    var p :| WalkFromTo(Next(), p, start, w);
    var inside := iset x | Inv(x);
    forall x, y | x in inside && Next()(x, y) ensures y in inside {
      var a :| Step(x, a, y);
      StepKeeps(x, a, y);
    }
    StaysInside(Next(), inside, p);
  }

  lemma StartedInv(w: World)
    requires Started(w)
    ensures Inv(w)
  {
  }

  /** Nothing resolved is reopened or resolved again, and a tagging or resolution leaves the other tags alone. */
  lemma StepsAreMonotone(w: World, a: Action, v: World)
    requires Step(w, a, v)
    ensures w.node.history <= v.node.history && |v.node.history| <= |w.node.history| + 1
    ensures forall id :: id in w.created ==> id in v.created
    ensures !a.Retag? ==> forall t :: !IsNeedInputTag(t) ==> (t in w.node.tags <==> t in v.node.tags)
    ensures a.Retag? ==> forall t :: !IsNeedInputTag(t) ==> (t in a.tags <==> t in v.node.tags)
  {
    hide WithTags;
    match a
    case StoreTag(r) => WithTagsMeans(w.node.tags, v.node.open);
    case StoreResolution(res) => WithTagsMeans(w.node.tags, Without(w.node.open, res.request.id));
    case Retag(tags) => WithTagsMeans(tags, w.node.open);
    case _ =>
  }

  /** Two callers who both saw a request open: the second to store its resolution changes nothing. */
  lemma SecondResolutionRefused(n: Node, first: Resolution, second: Resolution)
    requires first.request.id == second.request.id
    ensures !IsOpen(Resolved(n, first), second.request.id)
  {
  }

  /** Tags recomputed from requests read before another caller's tagging would miss that caller's tags. */
  lemma StaleRetagLosesTag(n: Node, r: Request, tags: seq<string>)
    requires !exists q :: q in n.open
    ensures NEED_INPUT in Tagged(n, r).tags
    ensures NEED_INPUT !in Tagged(n, r).(tags := WithTags(tags, n.open)).tags
  {
    hide WithTags;
    WithTagsMeans(n.tags, n.open + [r]);
    WithTagsMeans(tags, n.open);
    assert RequestTags(r)[0] == NEED_INPUT && r in n.open + [r];
  }
}
