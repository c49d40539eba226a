/** Tool names as sent to models whose grammar takes only letters, digits and underscores. */
module ToolNames {
  import opened Basics
  import opened Decimals

  predicate IsWordChar(c: char) {
    'A' <= c <= 'Z' || 'a' <= c <= 'z' || '0' <= c <= '9' || c == '_'
  }

  predicate IsWord(s: string) {
    forall i :: 0 <= i < |s| ==> IsWordChar(s[i])
  }

  function Base(name: string): (r: string)
    ensures IsWord(r) && |r| == |name|
    ensures IsWord(name) ==> r == name
    ensures forall i :: 0 <= i < |name| ==>
              r[i] == if name[i] == '_' || '0' <= name[i] <= '9' || 'A' <= name[i] <= 'Z' || 'a' <= name[i] <= 'z' then name[i] else '_'
  {
    seq(|name|, i requires 0 <= i < |name| => if IsWordChar(name[i]) then name[i] else '_')
  }

  /** The k-th name tried for a base: the base itself, then `base_2`, `base_3`, ... */
  function Candidate(base: string, k: nat): (r: string)
    ensures IsWord(base) ==> IsWord(r)
  {
    if k == 0 then base else base + "_" + Show(k + 1)
  }

  /** The suffix of a later candidate counts from 2. */
  lemma CandidateMeans(base: string, k: nat)
    ensures k == 0 ==> Candidate(base, k) == base
    ensures k > 0 ==>
              && |Candidate(base, k)| > |base| + 1 && Candidate(base, k)[..|base| + 1] == base + "_"
              && IsDigits(Candidate(base, k)[|base| + 1..]) && Decimal(Candidate(base, k)[|base| + 1..]) == k + 1
  {
    if k > 0 {
      assert Candidate(base, k)[|base| + 1..] == Show(k + 1);
      assert Candidate(base, k)[..|base| + 1] == base + "_";
    }
  }

  lemma CandidatesDiffer(base: string, j: nat, k: nat)
    requires Candidate(base, j) == Candidate(base, k)
    ensures j == k
  {
    if j > 0 && k > 0 {
      var a, b := Candidate(base, j), Candidate(base, k);
      assert Show(j + 1) == a[|base| + 1..] && Show(k + 1) == b[|base| + 1..];
    }
  }

  /** The suffixes are injective, so only finitely many candidates can be taken. */
  lemma TakenCandidatesAreFew(base: string, k: nat, used: set<string>)
    requires forall j: nat :: j < k ==> Candidate(base, j) in used
    ensures k <= |used|
  {
    var tried := seq(k, (j: nat) => Candidate(base, j));
    forall i, j | 0 <= i < j < k ensures tried[i] != tried[j] {
      if tried[i] == tried[j] {
        CandidatesDiffer(base, i, j);
      }
    }
    Pigeonhole(tried, used);
  }

  /** `alias` is the first candidate of `base` that is not taken yet. */
  ghost predicate FirstFree(base: string, used: set<string>, alias: string) {
    exists k: nat :: alias == Candidate(base, k) && alias !in used && forall j: nat :: j < k ==> Candidate(base, j) in used
  }

  lemma {:induction false} FirstFreeUnique(base: string, used: set<string>, a: string, b: string)
    requires FirstFree(base, used, a) && FirstFree(base, used, b)
    ensures a == b
  {
    var k: nat :| a == Candidate(base, k) && a !in used && forall j: nat :: j < k ==> Candidate(base, j) in used;
    var l: nat :| b == Candidate(base, l) && b !in used && forall j: nat :: j < l ==> Candidate(base, j) in used;
    assert k < l ==> Candidate(base, k) in used;
    assert l < k ==> Candidate(base, l) in used;
  }

  /** The aliases handed out, one per entry of the list: each the first one not handed out before it. */
  ghost predicate HandedOut(names: seq<string>, given: seq<string>) {
    |given| == |names| && forall i :: 0 <= i < |names| ==> FirstFree(Base(names[i]), Elements(given[..i]), given[i])
  }

  lemma {:induction false} HandedOutUnique(names: seq<string>, g: seq<string>, h: seq<string>)
    requires HandedOut(names, g) && HandedOut(names, h)
    ensures g == h
  {
    hide FirstFree, Candidate, Base;
    if names != [] {
      var n := |names| - 1;
      HandedOutPrefix(names, g);
      HandedOutPrefix(names, h);
      HandedOutUnique(names[..n], g[..n], h[..n]);
      FirstFreeUnique(Base(names[n]), Elements(g[..n]), g[n], h[n]);
      assert g == g[..n] + [g[n]] && h == h[..n] + [h[n]];
    }
  }

  lemma {:induction false} HandedOutPrefix(names: seq<string>, g: seq<string>)
    requires HandedOut(names, g) && names != []
    ensures HandedOut(names[..|names| - 1], g[..|g| - 1])
  {
    var n := |names| - 1;
    forall i | 0 <= i < n
      ensures FirstFree(Base(names[..n][i]), Elements(g[..n][..i]), g[..n][i])
    {
      assert g[..n][..i] == g[..i];
      assert FirstFree(Base(names[i]), Elements(g[..i]), g[i]);
    }
  }

  lemma {:induction false} HandedOutDistinct(names: seq<string>, g: seq<string>)
    requires HandedOut(names, g)
    ensures Distinct(g)
    ensures forall i :: 0 <= i < |g| ==> IsWord(g[i])
  {
    forall i, j | 0 <= i < j < |g| ensures g[i] != g[j] {
      assert FirstFree(Base(names[j]), Elements(g[..j]), g[j]);
      assert g[i] in g[..j];
    }
    forall i | 0 <= i < |g| ensures IsWord(g[i]) {
      assert FirstFree(Base(names[i]), Elements(g[..i]), g[i]);
    }
  }

  /** A repeated name keeps the alias of its last entry. */
  ghost predicate IsAliasMap(names: seq<string>, given: seq<string>, m: map<string, string>) {
    && |given| == |names|
    && (forall n :: n in m <==> n in names)
    && forall n :: n in m ==> exists i :: 0 <= i < |names| && names[i] == n && given[i] == m[n] && n !in names[i + 1..]
  }

  /** Finds the first candidate not in `used`; the loop ends because the candidates are all different. */
  method Alias(base: string, used: set<string>) returns (alias: string)
    ensures FirstFree(base, used, alias)
  {
    alias := base;
    var k: nat := 0;
    while alias in used
      invariant alias == Candidate(base, k)
      invariant forall j: nat :: j < k ==> Candidate(base, j) in used
      decreases |used| + 1 - k
    {
      TakenCandidatesAreFew(base, k + 1, used);
      k := k + 1;
      alias := base + "_" + Show(k + 1);
    }
  }

  method ToolNameAliases(nova: bool, names: seq<string>) returns (aliases: Option<map<string, string>>)
    ensures aliases == None <==> !nova || forall n :: n in names ==> IsWord(n)
    ensures aliases.Some? ==> exists given :: HandedOut(names, given) && IsAliasMap(names, given, aliases.value)
  {
    if !nova || forall n :: n in names ==> IsWord(n) { return None; }
    assert HandedOut(names[..0], []) && IsAliasMap(names[..0], [], map[]) && Elements<string>([]) == {};
    hide HandedOut, IsAliasMap, FirstFree, Base, Candidate, IsWord, Elements;
    var m: map<string, string>, used: set<string> := map[], {};
    ghost var given: seq<string> := [];
    for i := 0 to |names|
      invariant used == Elements(given)
      invariant HandedOut(names[..i], given) && IsAliasMap(names[..i], given, m)
    {
      var alias := Alias(Base(names[i]), used);
      AppendElement(given, alias);
      ExtendHandedOut(names[..i], given, names[i], alias);
      ExtendAliasMap(names[..i], given, m, names[i], alias);
      assert names[..i] + [names[i]] == names[..i + 1];
      used := used + {alias};
      given := given + [alias];
      m := m[names[i] := alias];
    }
    assert names[..|names|] == names;
    return Some(m);
  }

  lemma AppendElement(given: seq<string>, alias: string)
    ensures Elements(given + [alias]) == Elements(given) + {alias}
  {
  }

  lemma {:induction false} ExtendHandedOut(names: seq<string>, given: seq<string>, name: string, alias: string)
    requires HandedOut(names, given) && FirstFree(Base(name), Elements(given), alias)
    ensures HandedOut(names + [name], given + [alias])
  {
    var ns, g := names + [name], given + [alias];
    forall i | 0 <= i < |ns| ensures FirstFree(Base(ns[i]), Elements(g[..i]), g[i]) {
      assert g[..i] == given[..i];
      assert i == |given| ==> given[..i] == given;
    }
  }

  lemma ExtendAliasMap(names: seq<string>, given: seq<string>, m: map<string, string>, name: string, alias: string)
    requires IsAliasMap(names, given, m)
    ensures IsAliasMap(names + [name], given + [alias], m[name := alias])
  {
    var ns, g, m' := names + [name], given + [alias], m[name := alias];
    forall n | n in m'
      ensures exists i :: 0 <= i < |ns| && ns[i] == n && g[i] == m'[n] && n !in ns[i + 1..]
    {
      if n == name {
        assert ns[|names|] == n && g[|names|] == m'[n] && ns[|names| + 1..] == [];
      } else {
        var i :| 0 <= i < |names| && names[i] == n && given[i] == m[n] && n !in names[i + 1..];
        assert ns[i + 1..] == names[i + 1..] + [name];
        assert ns[i] == n && g[i] == m'[n];
      }
    }
  }

  // ---- Sending and restoring -----------------------------------------------------------------

  /** How a tool name is sent: unchanged, or as an alias, or (a tool no longer offered) as its base. */
  function Rename(aliases: Option<map<string, string>>, name: string): string {
    match aliases
    case None => name
    case Some(m) => if name in m then m[name] else Base(name)
  }

  ghost predicate Original(aliases: map<string, string>, alias: string, name: string) {
    name in aliases && aliases[name] == alias
  }

  /** The alias map turned around, as the reply is read: some name for each alias. */
  ghost predicate Inverted(aliases: map<string, string>, original: map<string, string>) {
    && (forall name :: name in aliases ==> aliases[name] in original)
    && forall alias :: alias in original ==> Original(aliases, alias, original[alias])
  }

  method Invert(aliases: map<string, string>) returns (original: map<string, string>)
    ensures Inverted(aliases, original)
  {
    original := map[];
    var left := aliases.Keys;
    while left != {}
      invariant left <= aliases.Keys
      invariant forall name :: name in aliases && name !in left ==> aliases[name] in original
      invariant forall alias :: alias in original ==> Original(aliases, alias, original[alias])
    {
      var name :| name in left;
      original := original[aliases[name] := name];
      left := left - {name};
    }
  }

  function Restore(original: Option<map<string, string>>, name: string): string {
    if original.Some? && name in original.value then original.value[name] else name
  }

  /** Names that were not offered go out in words alone, and names nobody made up come back as they are. */
  lemma OtherNamesPass(aliases: map<string, string>, original: map<string, string>, name: string)
    ensures name !in aliases ==> Rename(Some(aliases), name) == Base(name)
    ensures name !in original ==> Restore(Some(original), name) == name
    ensures Rename(None, name) == name && Restore(None, name) == name
  {
  }

  /** Distinct names get distinct aliases, so each alias leads back to the one name it was made for. */
  lemma {:induction false} AliasesInvert(names: seq<string>, given: seq<string>, m: map<string, string>)
    requires HandedOut(names, given) && IsAliasMap(names, given, m)
    ensures forall a, b :: a in m && b in m && m[a] == m[b] ==> a == b
    ensures forall n :: n in m ==> IsWord(m[n])
  {
    HandedOutDistinct(names, given);
    hide HandedOut, FirstFree, Candidate, Base;
    forall a, b | a in m && b in m && m[a] == m[b] ensures a == b {
      var i :| 0 <= i < |names| && names[i] == a && given[i] == m[a] && a !in names[i + 1..];
      var j :| 0 <= j < |names| && names[j] == b && given[j] == m[b] && b !in names[j + 1..];
      assert i == j;
    }
  }

  /** Whatever was sent for an offered tool comes back as that tool, and only words were ever sent. */
  lemma {:induction false} OfferedToolsComeBack(names: seq<string>, given: seq<string>, m: map<string, string>, original: map<string, string>)
    requires HandedOut(names, given) && IsAliasMap(names, given, m) && Inverted(m, original)
    ensures forall name :: name in names ==> Restore(Some(original), Rename(Some(m), name)) == name
    ensures forall name :: IsWord(Rename(Some(m), name))
  {
    AliasesInvert(names, given, m);
    forall name | name in names ensures Restore(Some(original), m[name]) == name {
      assert Original(m, m[name], original[m[name]]);
    }
  }
}
