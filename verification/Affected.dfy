/** Which circuits a proposal affects: reverse reachability over the references of its head commit. */
module Affected {
  import opened Basics
  import opened Walks

  datatype Kind = Circuit | Subagent | Tool | Mcp | Unowned

  /** A definition at the head commit; an absent uid is empty. */
  datatype Def = Def(uid: string, kind: Kind, slug: string, preset: string)
  datatype Ref = Ref(from: string, fromKind: Kind, target: string)
  datatype Head = Head(byUid: map<string, Def>, defs: seq<Def>, refs: seq<Ref>, presets: map<string, string>)

  /** A changed file: the definition that owns it, or one of the shared files. */
  datatype File = Owned(uid: string, kind: Kind) | TenetsFile | PresetsFile | OtherFile

  /** Why a circuit is affected. */
  datatype Via = Changed | Edited(kind: Kind, name: string) | Preset(tier: string) | SubCircuit(name: string) | Tenets

  datatype Item = Item(uid: string, via: Via)

  function Label(head: Head, uid: string): string {
    if uid in head.byUid then head.byUid[uid].slug else uid
  }

  predicate IsCircuit(head: Head, uid: string) {
    uid in head.byUid && head.byUid[uid].kind == Circuit
  }

  // ---- The declarative side ------------------------------------------------------------------

  /** The tiers whose preset differs between the two commits, an absent tier counting as null. */
  ghost predicate TierChanged(base: map<string, string>, head: Head, tier: string) {
    (tier in base || tier in head.presets) && !(tier in base && tier in head.presets && base[tier] == head.presets[tier])
  }

  /** What the changed files put in the queue: their owners, and the subagents on a changed preset tier. */
  ghost predicate Seed(base: map<string, string>, head: Head, files: seq<File>, item: Item) {
    OwnedSeed(head, files, item) || TierSeed(base, head, files, item)
  }

  ghost predicate OwnedSeed(head: Head, files: seq<File>, item: Item) {
    exists f :: f in files && f.Owned? && item == OwnedItem(head, f)
  }

  ghost predicate TierSeed(base: map<string, string>, head: Head, files: seq<File>, item: Item) {
    exists d :: d in head.defs && PresetItem(base, head, files, d, item)
  }

  function OwnedItem(head: Head, f: File): Item
    requires f.Owned?
  {
    Item(f.uid, if f.kind == Circuit then Changed else Edited(f.kind, Label(head, f.uid)))
  }

  ghost predicate PresetItem(base: map<string, string>, head: Head, files: seq<File>, d: Def, item: Item) {
    PresetsFile in files && d.kind == Subagent && d.uid != "" && TierChanged(base, head, d.preset) && item == Item(d.uid, Preset(d.preset))
  }

  /** What a parent is told: a parent of an edited circuit is reached through it. */
  function Onward(head: Head, item: Item): Via {
    if item.via == Changed then SubCircuit(Label(head, item.uid)) else item.via
  }

  predicate Follows(head: Head, r: Ref, item: Item) {
    r.target == item.uid && r.from != "" && r.from != item.uid && r.fromKind in {Circuit, Subagent, Tool}
  }

  function Parent(head: Head, r: Ref, item: Item): Item {
    Item(r.from, Onward(head, item))
  }

  function Up(head: Head): (Item, Item) -> bool {
    (a: Item, b: Item) => exists r :: r in head.refs && Follows(head, r, a) && b == Parent(head, r, a)
  }

  /** What one reference passes on: to another circuit, subagent or tool, under the same reason, an edited circuit by its name. */
  lemma UpIff(head: Head, a: Item, b: Item)
    ensures
      var name := if a.uid in head.byUid then head.byUid[a.uid].slug else a.uid;
      Up(head)(a, b) <==>
      && b.uid != "" && b.uid != a.uid && b.via == (if a.via == Changed then SubCircuit(name) else a.via)
      && exists r :: r in head.refs && r.from == b.uid && r.target == a.uid && r.fromKind !in {Mcp, Unowned}
  {
    forall r: Ref ensures r.fromKind in {Circuit, Subagent, Tool} <==> r.fromKind !in {Mcp, Unowned} {
      match r.fromKind case Circuit => case Subagent => case Tool => case Mcp => case Unowned =>
    }
    if exists r :: r in head.refs && r.from == b.uid && r.target == a.uid && r.fromKind !in {Mcp, Unowned} {
      var r :| r in head.refs && r.from == b.uid && r.target == a.uid && r.fromKind !in {Mcp, Unowned};
      assert Follows(head, r, a) || b.uid == "" || b.uid == a.uid;
    }
  }

  /** Why an owner is queued: a circuit as changed, anything else by its kind and its name. */
  lemma OwnedSeedMeans(head: Head, files: seq<File>, uid: string, kind: Kind)
    requires Owned(uid, kind) in files
    ensures
      var name := if uid in head.byUid then head.byUid[uid].slug else uid;
      OwnedSeed(head, files, Item(uid, if kind == Circuit then Changed else Edited(kind, name)))
  {
    assert OwnedItem(head, Owned(uid, kind)).uid == uid;
  }

  /** A chain of references leads from something that changed to the item. */
  ghost predicate Reached(base: map<string, string>, head: Head, files: seq<File>, item: Item) {
    exists s :: Seed(base, head, files, s) && Reaches(Up(head), s, item)
  }

  ghost predicate TenetsReach(head: Head, files: seq<File>, uid: string) {
    TenetsFile in files && uid in head.byUid && head.byUid[uid].kind == Circuit && exists d :: d in head.defs && d.kind == Circuit && d.uid == uid && uid != ""
  }

  ghost predicate IsAffected(base: map<string, string>, head: Head, files: seq<File>, uid: string) {
    (uid in head.byUid && head.byUid[uid].kind == Circuit && exists via :: Reached(base, head, files, Item(uid, via))) || TenetsReach(head, files, uid)
  }

  /** The reasons listed for a circuit: just `Changed` when it was edited, otherwise every reason there is, once. */
  ghost predicate Reasons(base: map<string, string>, head: Head, files: seq<File>, uid: string, vias: seq<Via>) {
    if Reached(base, head, files, Item(uid, Changed)) then vias == [Changed]
    else Distinct(vias) && forall via :: via in vias <==>
           Reached(base, head, files, Item(uid, via)) || (via == Tenets && TenetsReach(head, files, uid))
  }

  // ---- The collected result ------------------------------------------------------------------

  type Found = map<string, seq<Via>>

  function Hit(head: Head, found: Found, uid: string, via: Via): Found {
    if !IsCircuit(head, uid) then found
    else
      var cur := if uid in found then found[uid] else [];
      found[uid := if via == Changed then [Changed]
                   else if Changed !in cur && via !in cur then cur + [via]
                   else cur]
  }

  /** `found` is what hitting exactly these items gives, in whatever order. */
  ghost predicate Collects(head: Head, items: set<Item>, found: Found) {
    forall uid :: CollectsFor(head, items, found, uid)
  }

  ghost predicate CollectsFor(head: Head, items: set<Item>, found: Found, uid: string) {
    && (uid in found <==> IsCircuit(head, uid) && exists via :: Item(uid, via) in items)
    && (uid in found ==>
          if Item(uid, Changed) in items then found[uid] == [Changed]
          else Distinct(found[uid]) && forall via :: via in found[uid] <==> Item(uid, via) in items)
  }

  lemma {:induction false} HitCollects(head: Head, items: set<Item>, found: Found, uid: string, via: Via)
    requires Collects(head, items, found)
    ensures Collects(head, items + {Item(uid, via)}, Hit(head, found, uid, via))
  {
    forall u ensures CollectsFor(head, items + {Item(uid, via)}, Hit(head, found, uid, via), u) {
      assert CollectsFor(head, items, found, u);
      if u != uid {
      } else if IsCircuit(head, uid) {
      }
    }
  }

  // ---- The worklist --------------------------------------------------------------------------

  /** Every item the walk can ever queue: finitely many, so it ends. */
  ghost function Universe(head: Head, seeds: seq<Item>): set<Item> {
    var uids := (set i | i in seeds :: i.uid) + (set r | r in head.refs :: r.from);
    var vias := (set i | i in seeds :: i.via) + (set u | u in uids :: SubCircuit(Label(head, u)));
    set u, v | u in uids && v in vias :: Item(u, v)
  }

  lemma UniverseHasSeeds(head: Head, seeds: seq<Item>, item: Item)
    requires item in seeds
    ensures item in Universe(head, seeds)
  {
    assert Item(item.uid, item.via) == item;
  }

  lemma UniverseClosed(head: Head, seeds: seq<Item>, item: Item, r: Ref)
    requires item in Universe(head, seeds) && r in head.refs && Follows(head, r, item)
    ensures Parent(head, r, item) in Universe(head, seeds)
  {
  }

  /** The parents of an item, as they are queued. */
  method Parents(head: Head, item: Item) returns (out: seq<Item>)
    ensures forall p :: p in out <==> Up(head)(item, p)
  {
    out := [];
    for i := 0 to |head.refs|
      invariant forall p :: p in out <==> exists k :: 0 <= k < i && Follows(head, head.refs[k], item) && p == Parent(head, head.refs[k], item)
    {
      if Follows(head, head.refs[i], item) {
        out := out + [Parent(head, head.refs[i], item)];
      }
    }
    forall p ensures p in out <==> Up(head)(item, p) {
      if p in out {
        var k :| 0 <= k < |head.refs| && Follows(head, head.refs[k], item) && p == Parent(head, head.refs[k], item);
        assert head.refs[k] in head.refs;
      }
    }
  }

  ghost predicate FromSeeds(head: Head, seeds: seq<Item>, item: Item) {
    exists s :: s in seeds && Reaches(Up(head), s, item)
  }

  /** Everything met comes from the seeds, the seeds are met, and the parents of what was visited are met. */
  ghost predicate Working(head: Head, seeds: seq<Item>, visited: set<Item>, queue: seq<Item>) {
    && visited <= Universe(head, seeds)
    && (forall i :: i in queue ==> i in Universe(head, seeds))
    && (forall i :: i in visited || i in queue ==> FromSeeds(head, seeds, i))
    && (forall s :: s in seeds ==> s in visited || s in queue)
    && forall a, b :: a in visited && Up(head)(a, b) ==> b in visited || b in queue
  }

  lemma WorkStarts(head: Head, seeds: seq<Item>)
    ensures Working(head, seeds, {}, seeds)
  {
    hide Universe, Up;
    forall s | s in seeds ensures s in Universe(head, seeds) && FromSeeds(head, seeds, s) {
      UniverseHasSeeds(head, seeds, s);
      ReachesSelf(Up(head), s);
    }
  }

  lemma {:induction false} WorkSkips(head: Head, seeds: seq<Item>, visited: set<Item>, queue: seq<Item>)
    requires Working(head, seeds, visited, queue) && queue != [] && queue[0] in visited
    ensures Working(head, seeds, visited, queue[1..])
  {
    hide Universe, Up, FromSeeds;
    assert queue == [queue[0]] + queue[1..];
  }

  lemma {:induction false} WorkVisits(head: Head, seeds: seq<Item>, visited: set<Item>, queue: seq<Item>, parents: seq<Item>)
    requires Working(head, seeds, visited, queue) && queue != []
    requires forall p :: p in parents <==> Up(head)(queue[0], p)
    ensures Working(head, seeds, visited + {queue[0]}, queue[1..] + parents)
    ensures queue[0] in Universe(head, seeds)
  {
    var item := queue[0];
    assert queue == [item] + queue[1..];
    forall p | p in parents ensures p in Universe(head, seeds) && FromSeeds(head, seeds, p) {
      ParentFromSeeds(head, seeds, item, p);
    }
    hide Universe, Up, FromSeeds;
  }

  lemma ParentFromSeeds(head: Head, seeds: seq<Item>, item: Item, p: Item)
    requires item in Universe(head, seeds) && FromSeeds(head, seeds, item) && Up(head)(item, p)
    ensures p in Universe(head, seeds) && FromSeeds(head, seeds, p)
  {
    hide Universe;
    var r :| r in head.refs && Follows(head, r, item) && p == Parent(head, r, item);
    UniverseClosed(head, seeds, item, r);
    var s :| s in seeds && Reaches(Up(head), s, item);
    ReachesThen(Up(head), s, item, p);
  }

  lemma {:induction false} WorkEnds(head: Head, seeds: seq<Item>, visited: set<Item>)
    requires Working(head, seeds, visited, [])
    ensures forall i :: i in visited <==> FromSeeds(head, seeds, i)
  {
    hide Universe, Up;
    forall i | FromSeeds(head, seeds, i) ensures i in visited {
      var s :| s in seeds && Reaches(Up(head), s, i);
      ClosedUnderUp(head, visited, s, i);
    }
  }

  /** Walks up the references from the seeds and collects every circuit met. */
  method Propagate(head: Head, seeds: seq<Item>) returns (found: Found, ghost met: set<Item>)
    ensures Collects(head, met, found)
    ensures forall i :: i in met <==> FromSeeds(head, seeds, i)
  {
    hide Working, Universe, Up, Collects, Hit, FromSeeds;
    found := map[];
    assert Collects(head, {}, found) by { NothingCollected(head); }
    WorkStarts(head, seeds);
    var queue, seen: set<Item> := seeds, {};
    while queue != []
      invariant Collects(head, seen, found) && Working(head, seeds, seen, queue)
      decreases Universe(head, seeds) - seen, |queue|
    {
      var item := queue[0];
      if item in seen {
        WorkSkips(head, seeds, seen, queue);
        queue := queue[1..];
      } else {
        var parents := Parents(head, item);
        WorkVisits(head, seeds, seen, queue, parents);
        HitCollects(head, seen, found, item.uid, item.via);
        assert Item(item.uid, item.via) == item;
        found := Hit(head, found, item.uid, item.via);
        assert Universe(head, seeds) - (seen + {item}) < Universe(head, seeds) - seen;
        seen := seen + {item};
        queue := queue[1..] + parents;
      }
    }
    WorkEnds(head, seeds, seen);
    met := seen;
  }

  lemma NothingCollected(head: Head)
    ensures Collects(head, {}, map[])
  {
  }

  lemma ClosedUnderUp(head: Head, visited: set<Item>, s: Item, i: Item)
    requires s in visited && Reaches(Up(head), s, i)
    requires forall a, b :: a in visited && Up(head)(a, b) ==> b in visited
    ensures i in visited
  {
    var p :| WalkFromTo(Up(head), p, s, i);
    var inside := iset x | x in visited;
    StaysInside(Up(head), inside, p);
  }

  // ---- The whole computation -----------------------------------------------------------------

  function ChangedTiers(base: map<string, string>, head: Head): (tiers: set<string>)
    ensures forall t :: t in tiers <==> TierChanged(base, head, t)
  {
    set t | t in base.Keys + head.presets.Keys && !(t in base && t in head.presets && base[t] == head.presets[t])
  }

  /** The items the changed files put in the queue. */
  method Seeds(base: map<string, string>, head: Head, files: seq<File>) returns (seeds: seq<Item>, tenets: bool)
    ensures forall i :: i in seeds <==> OwnedSeed(head, files, i) || TierSeed(base, head, files, i)
    ensures tenets <==> TenetsFile in files
  {
    seeds, tenets := [], false;
    var tiers: set<string> := {};
    for k := 0 to |files|
      invariant tenets <==> TenetsFile in files[..k]
      invariant tiers == if PresetsFile in files[..k] then ChangedTiers(base, head) else {}
      invariant forall i :: i in seeds <==> OwnedSeed(head, files[..k], i)
    {
      var f := files[k];
      assert files[..k + 1] == files[..k] + [f];
      match f
      case Owned(_, _) =>
        forall i ensures OwnedSeed(head, files[..k + 1], i) <==> OwnedSeed(head, files[..k], i) || i == OwnedItem(head, f) {
        }
        seeds := seeds + [OwnedItem(head, f)];
      case TenetsFile => tenets := true;
      case PresetsFile => tiers := tiers + ChangedTiers(base, head);
      case OtherFile =>
    }
    assert files[..|files|] == files;
    ghost var owned := seeds;
    for k := 0 to |head.defs|
      invariant forall i :: i in seeds <==> i in owned || TierSeed(base, head.(defs := head.defs[..k]), files, i)
    {
      var d := head.defs[k];
      assert head.defs[..k + 1] == head.defs[..k] + [d];
      forall i ensures TierSeed(base, head.(defs := head.defs[..k + 1]), files, i)
                       <==> TierSeed(base, head.(defs := head.defs[..k]), files, i) || PresetItem(base, head, files, d, i) {
        TierSeedAppend(base, head, files, head.defs[..k], d, i);
      }
      if d.kind == Subagent && d.uid != "" && d.preset in tiers {
        seeds := seeds + [Item(d.uid, Preset(d.preset))];
      }
    }
    assert head.(defs := head.defs[..|head.defs|]) == head;
  }

  lemma TierSeedAppend(base: map<string, string>, head: Head, files: seq<File>, defs: seq<Def>, d: Def, item: Item)
    ensures TierSeed(base, head.(defs := defs + [d]), files, item)
            <==> TierSeed(base, head.(defs := defs), files, item) || PresetItem(base, head, files, d, item)
  {
    var before, after := head.(defs := defs), head.(defs := defs + [d]);
    assert forall e :: PresetItem(base, before, files, e, item) <==> PresetItem(base, head, files, e, item);
    assert forall e :: PresetItem(base, after, files, e, item) <==> PresetItem(base, head, files, e, item);
    assert d in after.defs;
    if TierSeed(base, before, files, item) {
      var e :| e in defs && PresetItem(base, before, files, e, item);
      assert e in after.defs;
    }
  }

  ghost predicate TenetsItem(head: Head, n: nat, item: Item)
    requires n <= |head.defs|
  {
    item.via == Tenets && exists k :: 0 <= k < n && head.defs[k].kind == Circuit && head.defs[k].uid == item.uid && item.uid != ""
  }

  method HitAll(head: Head, found: Found, ghost items: set<Item>) returns (out: Found, ghost all: set<Item>)
    requires Collects(head, items, found)
    ensures Collects(head, all, out)
    ensures forall i :: i in all <==> i in items || TenetsItem(head, |head.defs|, i)
  {
    hide Collects, Hit;
    out, all := found, items;
    for k := 0 to |head.defs|
      invariant Collects(head, all, out)
      invariant forall i :: i in all <==> i in items || TenetsItem(head, k, i)
    {
      var d := head.defs[k];
      if d.kind == Circuit && d.uid != "" {
        HitCollects(head, all, out, d.uid, Tenets);
        out := Hit(head, out, d.uid, Tenets);
        all := all + {Item(d.uid, Tenets)};
      }
    }
  }

  /** The circuits a proposal affects are exactly those that its changes reach, each with exactly its reasons. */
  method AffectedCircuits(base: map<string, string>, head: Head, files: seq<File>) returns (found: Found)
    ensures forall uid :: uid in found <==> IsAffected(base, head, files, uid)
    ensures forall uid :: uid in found ==> Reasons(base, head, files, uid, found[uid])
  {
    hide Collects, Universe, Up, FromSeeds, Seed, OwnedSeed, TierSeed;
    var seeds, tenets := Seeds(base, head, files);
    ghost var items;
    found, items := Propagate(head, seeds);
    forall i ensures i in items <==> Reached(base, head, files, i) {
      SeedsReach(base, head, files, seeds, i);
    }
    if tenets {
      found, items := HitAll(head, found, items);
    }
    forall uid
      ensures uid in found <==> IsAffected(base, head, files, uid)
      ensures uid in found ==> Reasons(base, head, files, uid, found[uid])
    {
      Summarised(base, head, files, items, found, uid);
    }
  }

  lemma SeedsReach(base: map<string, string>, head: Head, files: seq<File>, seeds: seq<Item>, i: Item)
    requires forall s :: s in seeds <==> OwnedSeed(head, files, s) || TierSeed(base, head, files, s)
    ensures FromSeeds(head, seeds, i) <==> Reached(base, head, files, i)
  {
    hide Up, Reaches;
    assert forall s :: s in seeds <==> Seed(base, head, files, s);
    if FromSeeds(head, seeds, i) {
      var s :| s in seeds && Reaches(Up(head), s, i);
      assert Seed(base, head, files, s);
    }
    if Reached(base, head, files, i) {
      var s :| Seed(base, head, files, s) && Reaches(Up(head), s, i);
      assert s in seeds;
    }
  }

  lemma Summarised(base: map<string, string>, head: Head, files: seq<File>, items: set<Item>, found: Found, uid: string)
    requires Collects(head, items, found)
    requires forall i :: i in items <==> Reached(base, head, files, i) || (TenetsFile in files && TenetsItem(head, |head.defs|, i))
    ensures uid in found <==> IsAffected(base, head, files, uid)
    ensures uid in found ==> Reasons(base, head, files, uid, found[uid])
  {
    hide Reached;
    assert CollectsFor(head, items, found, uid);
    if exists via :: Reached(base, head, files, Item(uid, via)) {
      var via :| Reached(base, head, files, Item(uid, via));
      assert Item(uid, via) in items;
    }
    if TenetsReach(head, files, uid) {
      assert Item(uid, Tenets) in items;
    }
    if exists via :: Item(uid, via) in items {
      var via :| Item(uid, via) in items;
      assert Reached(base, head, files, Item(uid, via)) || via == Tenets;
    }
  }

  /** A circuit is listed as changed exactly when a file it owns changed; references never make it so. */
  lemma DirectlyChanged(base: map<string, string>, head: Head, files: seq<File>, uid: string)
    ensures Reached(base, head, files, Item(uid, Changed)) <==> Owned(uid, Circuit) in files
  {
    var item := Item(uid, Changed);
    if Owned(uid, Circuit) in files {
      assert item == OwnedItem(head, Owned(uid, Circuit));
      assert Seed(base, head, files, item);
      ReachesSelf(Up(head), item);
    }
    if Reached(base, head, files, item) {
      var s :| Seed(base, head, files, s) && Reaches(Up(head), s, item);
      var p :| WalkFromTo(Up(head), p, s, item);
      if |p| > 1 {
        WalkEndsWithEdge(Up(head), p, s, item);
        assert false;
      }
      assert s == item;
    }
  }
}
