/** Finding a quoted passage again: exact occurrences first, then occurrences up to whitespace, case and emphasis. */
module Anchors {
  import opened Basics
  import opened Positions

  /** Unicode facts are parameters: what `\s` matches and what `toLowerCase` yields for one character. */
  datatype Alphabet = Alphabet(space: char -> bool, lower: char -> string)

  const SKIP := {'*', '_', '`', '~'}

  predicate Kept(al: Alphabet, c: char) {
    !al.space(c) && c !in SKIP
  }

  /** Lowercasing a kept character yields kept characters that lowercasing leaves alone. */
  ghost predicate SaneAt(al: Alphabet, c: char) {
    Kept(al, c) ==> al.lower(c) != "" && forall i :: 0 <= i < |al.lower(c)| ==> Settled(al, al.lower(c)[i])
  }

  ghost predicate Settled(al: Alphabet, c: char) {
    Kept(al, c) && al.lower(c) == [c]
  }

  ghost predicate Sane(al: Alphabet) {
    al.space(' ') && forall c :: SaneAt(al, c)
  }

  /** No kept character of the text lowercases to several. */
  ghost predicate OneToOne(al: Alphabet, s: string) {
    forall i :: 0 <= i < |s| && Kept(al, s[i]) ==> |al.lower(s[i])| == 1
  }

  // ---- Normalisation -------------------------------------------------------------------------

  /** Whether a space would be dropped after `norm`. */
  predicate AtBreak(norm: string) {
    norm == "" || norm[|norm| - 1] == ' '
  }

  function Emit(al: Alphabet, norm: string, c: char): string {
    if al.space(c) then if AtBreak(norm) then "" else " "
    else if c in SKIP then ""
    else al.lower(c)
  }

  /** The normalised text once the characters `s[a..b]` have been added to `norm`. */
  function Feed(al: Alphabet, norm: string, s: string, a: nat, b: nat): (r: string)
    requires a <= b <= |s|
    ensures |norm| <= |r|
    decreases b - a
  {
    if a == b then norm
    else
      var before := Feed(al, norm, s, a, b - 1);
      before + Emit(al, before, s[b - 1])
  }

  /** The normalised form of the first `i` characters, before trimming. */
  function Pre(al: Alphabet, s: string, i: nat): string
    requires i <= |s|
  {
    Feed(al, "", s, 0, i)
  }

  function Repeat(i: nat, n: nat): (r: seq<nat>)
    ensures |r| == n && forall k :: 0 <= k < n ==> r[k] == i
  {
    seq(n, _ => i)
  }

  /** The source offset of each of those characters. */
  function Offsets(al: Alphabet, s: string, i: nat): (r: seq<nat>)
    requires i <= |s|
    ensures |r| == |Pre(al, s, i)|
  {
    if i == 0 then []
    else Offsets(al, s, i - 1) + Repeat(i - 1, |Emit(al, Pre(al, s, i - 1), s[i - 1])|)
  }

  predicate EndsInSpace(norm: string) {
    norm != "" && norm[|norm| - 1] == ' '
  }

  function Trimmed(norm: string): string {
    if EndsInSpace(norm) then norm[..|norm| - 1] else norm
  }

  function Norm(al: Alphabet, s: string): string {
    Trimmed(Pre(al, s, |s|))
  }

  function NormMap(al: Alphabet, s: string): (r: seq<nat>)
    ensures |r| == |Norm(al, s)|
  {
    Offsets(al, s, |s|)[..|Norm(al, s)|]
  }

  method AppendLowered(low: string, i: nat, norm: string, offsets: seq<nat>) returns (norm': string, offsets': seq<nat>)
    ensures norm' == norm + low && offsets' == offsets + Repeat(i, |low|)
  {
    norm', offsets' := norm, offsets;
    for k := 0 to |low|
      invariant norm' == norm + low[..k] && offsets' == offsets + Repeat(i, k)
    {
      norm' := norm' + [low[k]];
      offsets' := offsets' + [i];
    }
  }

  method NormalizeWithMap(al: Alphabet, s: string) returns (norm: string, offsets: seq<nat>)
    ensures norm == Norm(al, s) && offsets == NormMap(al, s)
  {
    norm, offsets := "", [];
    for i := 0 to |s|
      invariant norm == Pre(al, s, i) && offsets == Offsets(al, s, i)
    {
      var ch := s[i];
      if al.space(ch) {
        if norm != "" && norm[|norm| - 1] != ' ' {
          norm := norm + " ";
          offsets := offsets + [i];
        }
      } else if ch !in SKIP {
        norm, offsets := AppendLowered(al.lower(ch), i, norm, offsets);
      }
    }
    if norm != "" && norm[|norm| - 1] == ' ' {
      norm := norm[..|norm| - 1];
      offsets := offsets[..|offsets| - 1];
    }
  }

  // ---- Feeding in pieces ---------------------------------------------------------------------

  lemma {:induction false} FeedSplit(al: Alphabet, n: string, s: string, a: nat, b: nat, c: nat)
    requires a <= b <= c <= |s|
    ensures Feed(al, n, s, a, c) == Feed(al, Feed(al, n, s, a, b), s, b, c)
    decreases c
  {
    if b < c { FeedSplit(al, n, s, a, b, c - 1); }
  }

  ghost predicate SameChars(s: string, a: nat, t: string, b: nat, len: nat)
    requires a + len <= |s| && b + len <= |t|
  {
    forall j :: a <= j < a + len ==> s[j] == t[b + (j - a)]
  }

  /** Equal characters feed equally, wherever they stand. */
  lemma {:induction false} FeedCopy(al: Alphabet, n: string, s: string, a: nat, t: string, b: nat, len: nat)
    requires a + len <= |s| && b + len <= |t| && SameChars(s, a, t, b, len)
    ensures Feed(al, n, s, a, a + len) == Feed(al, n, t, b, b + len)
    decreases len
  {
    if len > 0 {
      FeedCopy(al, n, s, a, t, b, len - 1);
      assert s[a + len - 1] == t[b + len - 1];
    }
  }

  /** Beyond its last character, the text so far does not matter. */
  lemma {:induction false} PrefixIrrelevant(al: Alphabet, x: string, t: string, s: string, a: nat, b: nat)
    requires a <= b <= |s| && t != ""
    ensures Feed(al, x + t, s, a, b) == x + Feed(al, t, s, a, b)
    decreases b
  {
    if a < b {
      PrefixIrrelevant(al, x, t, s, a, b - 1);
      var before := Feed(al, t, s, a, b - 1);
      AppendedEmission(al, x, before, s[b - 1]);
    }
  }

  lemma AppendedEmission(al: Alphabet, x: string, before: string, c: char)
    requires before != ""
    ensures (x + before) + Emit(al, x + before, c) == x + (before + Emit(al, before, c))
  {
    assert AtBreak(x + before) == AtBreak(before);
  }

  /** After a kept character, nothing depends on what came before it. */
  lemma FeedFromKept(al: Alphabet, n: string, s: string, a: nat, b: nat)
    requires Sane(al) && a < b <= |s| && Kept(al, s[a])
    ensures Feed(al, n, s, a, b) == n + Feed(al, "", s, a, b)
  {
    assert SaneAt(al, s[a]);
    FeedAfter(al, n, s, a, b);
    FeedAfter(al, "", s, a, b);
  }

  lemma FeedAfter(al: Alphabet, n: string, s: string, a: nat, b: nat)
    requires a < b <= |s| && Kept(al, s[a]) && al.lower(s[a]) != ""
    ensures Feed(al, n, s, a, b) == n + Feed(al, al.lower(s[a]), s, a + 1, b)
  {
    hide Feed;
    FeedSplit(al, n, s, a, a + 1, b);
    FeedOne(al, n, s, a);
    PrefixIrrelevant(al, n, al.lower(s[a]), s, a + 1, b);
  }

  lemma FeedOne(al: Alphabet, n: string, s: string, a: nat)
    requires a < |s| && Kept(al, s[a])
    ensures Feed(al, n, s, a, a + 1) == n + al.lower(s[a])
  {
    assert Feed(al, n, s, a, a) == n;
  }

  // ---- The map -------------------------------------------------------------------------------

  lemma EmptyPre(al: Alphabet, s: string)
    ensures Pre(al, s, 0) == ""
  {
  }

  lemma PreStep(al: Alphabet, s: string, i: nat)
    requires i < |s|
    ensures Pre(al, s, i + 1) == Pre(al, s, i) + Emit(al, Pre(al, s, i), s[i])
  {
  }

  lemma {:induction false} PreGrows(al: Alphabet, s: string, i: nat, j: nat)
    requires i <= j <= |s|
    ensures Pre(al, s, i) <= Pre(al, s, j)
    decreases j
  {
    if i < j { PreGrows(al, s, i, j - 1); }
  }

  /** The map counts: the characters with offsets before i are exactly those of the first i source characters. */
  lemma {:induction false} OffsetsCount(al: Alphabet, s: string, n: nat, i: nat, k: nat)
    requires i <= n <= |s| && k < |Pre(al, s, n)|
    ensures Offsets(al, s, n)[k] < n
    ensures Offsets(al, s, n)[k] < i <==> k < |Pre(al, s, i)|
    decreases n
  {
    if k < |Pre(al, s, n - 1)| {
      OffsetsCount(al, s, n - 1, if i == n then i - 1 else i, k);
    } else if i < n {
      PreGrows(al, s, i, n - 1);
    }
  }

  /** Every normalised character comes from the source character its offset names. */
  ghost predicate ComesFrom(al: Alphabet, c: char, source: char) {
    if al.space(source) then c == ' ' else Kept(al, source) && c in al.lower(source)
  }

  lemma {:induction false} PreChar(al: Alphabet, s: string, n: nat, k: nat)
    requires n <= |s| && k < |Pre(al, s, n)|
    ensures Offsets(al, s, n)[k] < n && ComesFrom(al, Pre(al, s, n)[k], s[Offsets(al, s, n)[k]])
    decreases n
  {
    if k < |Pre(al, s, n - 1)| {
      PreChar(al, s, n - 1, k);
    }
  }

  /** The positions source character i emits. */
  lemma EmittedAt(al: Alphabet, s: string, i: nat, k: nat)
    requires i < |s| && k < |Pre(al, s, |s|)|
    ensures Offsets(al, s, |s|)[k] == i <==> |Pre(al, s, i)| <= k < |Pre(al, s, i + 1)|
  {
    OffsetsCount(al, s, |s|, i, k);
    OffsetsCount(al, s, |s|, i + 1, k);
  }

  lemma OffsetsAscend(al: Alphabet, s: string, j: nat, k: nat)
    requires j <= k < |Pre(al, s, |s|)|
    ensures Offsets(al, s, |s|)[j] <= Offsets(al, s, |s|)[k] < |s|
  {
    OffsetsCount(al, s, |s|, 0, k);
    var i := Offsets(al, s, |s|)[k] + 1;
    OffsetsCount(al, s, |s|, i, k);
    OffsetsCount(al, s, |s|, i, j);
  }

  /** With one-to-one lowercasing, map entry k is preceded by exactly k characters. */
  lemma PrefixLength(al: Alphabet, s: string, k: nat)
    requires Sane(al) && OneToOne(al, s) && k < |Pre(al, s, |s|)|
    ensures Offsets(al, s, |s|)[k] < |s|
    ensures |Pre(al, s, Offsets(al, s, |s|)[k])| == k && |Pre(al, s, Offsets(al, s, |s|)[k] + 1)| == k + 1
  {
    OffsetsCount(al, s, |s|, 0, k);
    var i := Offsets(al, s, |s|)[k];
    EmittedAt(al, s, i, k);
    assert |Emit(al, Pre(al, s, i), s[i])| <= 1;
  }

  lemma AscendsWhenOneToOne(al: Alphabet, s: string, j: nat, k: nat)
    requires Sane(al) && OneToOne(al, s) && j < k < |Pre(al, s, |s|)|
    ensures Offsets(al, s, |s|)[j] < Offsets(al, s, |s|)[k]
  {
    OffsetsAscend(al, s, j, k);
    PrefixLength(al, s, j);
    PrefixLength(al, s, k);
  }

  /** A character with a longer lowercase form puts the same offset into the map twice. */
  lemma RepeatsWhenNot(al: Alphabet, s: string, i: nat) returns (k: nat)
    requires Sane(al) && i < |s| && Kept(al, s[i]) && |al.lower(s[i])| > 1
    ensures k + 1 < |Norm(al, s)| && NormMap(al, s)[k] == NormMap(al, s)[k + 1] == i
  {
    hide Feed;
    k := |Pre(al, s, i)|;
    PreStep(al, s, i);
    PreGrows(al, s, i + 1, |s|);
    EmittedAt(al, s, i, k);
    EmittedAt(al, s, i, k + 1);
    PreChar(al, s, |s|, k + 1);
    assert SaneAt(al, s[i]);
  }

  /**
   * The offset map: as long as the normalised text, in range, never decreasing, each entry the source of
   * its character; and strictly increasing exactly when no kept character lowercases to several.
   */
  lemma MapShape(al: Alphabet, s: string)
    requires Sane(al)
    ensures |NormMap(al, s)| == |Norm(al, s)|
    ensures forall k :: 0 <= k < |Norm(al, s)| ==> NormMap(al, s)[k] < |s| && ComesFrom(al, Norm(al, s)[k], s[NormMap(al, s)[k]])
    ensures forall j, k :: 0 <= j <= k < |Norm(al, s)| ==> NormMap(al, s)[j] <= NormMap(al, s)[k]
    ensures StrictlyAscending(NormMap(al, s)) <==> OneToOne(al, s)
  {
    forall k | 0 <= k < |Norm(al, s)|
      ensures NormMap(al, s)[k] < |s| && ComesFrom(al, Norm(al, s)[k], s[NormMap(al, s)[k]])
    {
      PreChar(al, s, |s|, k);
    }
    forall j, k | 0 <= j <= k < |Norm(al, s)| ensures NormMap(al, s)[j] <= NormMap(al, s)[k] {
      OffsetsAscend(al, s, j, k);
    }
    if OneToOne(al, s) {
      forall j, k | 0 <= j < k < |NormMap(al, s)| ensures NormMap(al, s)[j] < NormMap(al, s)[k] {
        AscendsWhenOneToOne(al, s, j, k);
      }
    } else {
      var i :| 0 <= i < |s| && Kept(al, s[i]) && |al.lower(s[i])| != 1;
      assert SaneAt(al, s[i]);
      var k := RepeatsWhenNot(al, s, i);
      assert !(NormMap(al, s)[k] < NormMap(al, s)[k + 1]);
    }
  }

  // ---- Idempotence ---------------------------------------------------------------------------

  /** Lowercase kept characters with single spaces between them. */
  ghost predicate Tidy(al: Alphabet, n: string) {
    && (forall k :: 0 <= k < |n| ==> n[k] == ' ' || Settled(al, n[k]))
    && (forall k :: 0 <= k < |n| && n[k] == ' ' ==> k > 0 && n[k - 1] != ' ')
  }

  lemma {:induction false} PreIsTidy(al: Alphabet, s: string, i: nat)
    requires Sane(al) && i <= |s|
    ensures Tidy(al, Pre(al, s, i))
  {
    if i > 0 {
      PreIsTidy(al, s, i - 1);
      TidyEmission(al, Pre(al, s, i - 1), s[i - 1]);
    }
  }

  lemma TidyEmission(al: Alphabet, n: string, c: char)
    requires Sane(al) && Tidy(al, n)
    ensures Tidy(al, n + Emit(al, n, c))
  {
    assert SaneAt(al, c);
  }

  lemma {:induction false} TidyIsFixed(al: Alphabet, n: string, i: nat)
    requires Sane(al) && Tidy(al, n) && i <= |n|
    ensures Pre(al, n, i) == n[..i]
  {
    if i > 0 {
      TidyIsFixed(al, n, i - 1);
    }
  }

  lemma NormIdempotent(al: Alphabet, s: string)
    requires Sane(al)
    ensures Norm(al, Norm(al, s)) == Norm(al, s)
  {
    PreIsTidy(al, s, |s|);
    var n := Norm(al, s);
    TidyIsFixed(al, n, |n|);
    NormEdges(al, s);
  }

  /** Normalised text neither starts nor ends with a space. */
  lemma NormEdges(al: Alphabet, s: string)
    requires Sane(al)
    ensures Norm(al, s) != "" ==> Norm(al, s)[0] != ' ' && !EndsInSpace(Norm(al, s))
  {
    PreIsTidy(al, s, |s|);
  }

  // ---- Occurrences ---------------------------------------------------------------------------

  predicate OccursAt(hay: string, needle: string, i: nat) {
    i + |needle| <= |hay| && forall k :: 0 <= k < |needle| ==> needle[k] == hay[i + k]
  }

  function Occurs(hay: string, needle: string): nat -> bool {
    (i: nat) => OccursAt(hay, needle, i)
  }

  /** `hay.indexOf(needle, from)`. */
  function IndexOf(hay: string, needle: string, from: nat): Option<nat> {
    if from > |hay| then None else First(Occurs(hay, needle), from, |hay| + 1)
  }

  /** All occurrences, overlapping ones included. */
  function Occurrences(hay: string, needle: string): (r: seq<nat>)
    ensures forall i :: i in r <==> needle != "" && OccursAt(hay, needle, i)
    ensures forall k :: 0 <= k < |r| ==> r[k] <= |hay|
    ensures StrictlyAscending(r)
  {
    if needle == "" then [] else Where(Occurs(hay, needle), 0, |hay| + 1)
  }

  method AllIndexes(hay: string, needle: string) returns (out: seq<nat>)
    ensures out == Occurrences(hay, needle)
  {
    out := [];
    if needle == "" { return; }
    ghost var at := Occurs(hay, needle);
    var i := IndexOf(hay, needle, 0);
    ghost var from := 0;
    while i.Some?
      invariant StrictlyAscending(out) && forall j: nat :: j in out <==> j < from && at(j)
      invariant i.Some? ==> from <= i.value <= |hay| && at(i.value) && forall j: nat :: from <= j < i.value ==> !at(j)
      invariant i == None ==> forall j: nat :: from <= j <= |hay| ==> !at(j)
      decreases if i.Some? then |hay| - i.value + 1 else 0
    {
      assert forall k :: 0 <= k < |out| ==> out[k] in out;
      out := out + [i.value];
      from := i.value + 1;
      i := IndexOf(hay, needle, i.value + 1);
    }
    AscendingUnique(out, Occurrences(hay, needle));
  }

  predicate Contains(hay: string, needle: string) {
    IndexOf(hay, needle, 0).Some?
  }

  /** The text around an occurrence that context is looked for in. */
  function Window(hay: string, o: nat, qlen: nat, ctx: string): string
    requires o <= |hay|
  {
    hay[if o < |ctx| then 0 else o - |ctx|..if o + qlen + |ctx| < |hay| then o + qlen + |ctx| else |hay|]
  }

  function InContext(hay: string, qlen: nat, ctx: string): nat -> bool {
    (o: nat) => o <= |hay| && Contains(Window(hay, o, qlen, ctx), ctx)
  }

  function NarrowByContext(hay: string, offsets: seq<nat>, qlen: nat, ctx: string): (r: seq<nat>) {
    Select(offsets, InContext(hay, qlen, ctx))
  }

  /** `map.findIndex((m) => m >= o)`. */
  function FirstAtLeast(offsets: seq<nat>, o: nat): (r: Option<nat>)
    ensures r.Some? ==> r.value < |offsets| && offsets[r.value] >= o && forall j :: 0 <= j < r.value ==> offsets[j] < o
    ensures r == None ==> forall j :: 0 <= j < |offsets| ==> offsets[j] < o
  {
    var at := (k: nat) => k < |offsets| && offsets[k] >= o;
    assert forall j :: 0 <= j < |offsets| ==> (at(j) <==> offsets[j] >= o);
    First(at, 0, |offsets|)
  }

  /** Where exact occurrences land in the normalised text; those past its end are dropped. */
  function Landings(offsets: seq<nat>, exact: seq<nat>): (r: seq<nat>)
    ensures forall k :: 0 <= k < |r| ==> r[k] < |offsets| && exists j :: 0 <= j < |exact| && FirstAtLeast(offsets, exact[j]) == Some(r[k])
  {
    if exact == [] then []
    else
      var rest := Landings(offsets, exact[1..]);
      match FirstAtLeast(offsets, exact[0])
      case Some(x) => [x] + rest
      case None => rest
  }

  // ---- The locator ---------------------------------------------------------------------------

  datatype Resolution = Unmappable | NotFound | Ambiguous | Resolved(offset: nat)

  predicate Blank(al: Alphabet, s: string) {
    forall i :: 0 <= i < |s| ==> al.space(s[i])
  }

  predicate HasContext(al: Alphabet, context: Option<string>) {
    context.Some? && !Blank(al, context.value)
  }

  /** No exact occurrence carries the context verbatim: compare normalised windows. */
  function ByNormalizedContext(al: Alphabet, text: string, quote: string, exact: seq<nat>, context: string): Resolution {
    var landed := Landings(NormMap(al, text), exact);
    var nh := NarrowByContext(Norm(al, text), landed, |Norm(al, quote)|, Norm(al, context));
    if |nh| == 1 then assert nh[0] in landed; Resolved(NormMap(al, text)[nh[0]]) else Ambiguous
  }

  /** Several exact occurrences: the context decides, or nothing does. */
  function Disambiguate(al: Alphabet, text: string, quote: string, exact: seq<nat>, context: string): Resolution {
    var hits := NarrowByContext(text, exact, |quote|, context);
    if |hits| == 1 then Resolved(hits[0])
    else if |hits| == 0 then ByNormalizedContext(al, text, quote, exact, context)
    else Ambiguous
  }

  function FuzzyHits(al: Alphabet, text: string, quote: string, context: Option<string>): (r: seq<nat>)
    ensures forall k :: 0 <= k < |r| ==> OccursAt(Norm(al, text), Norm(al, quote), r[k])
  {
    var nt, nq := Norm(al, text), Norm(al, quote);
    var fuzzy := Occurrences(nt, nq);
    assert forall k :: 0 <= k < |fuzzy| ==> fuzzy[k] in fuzzy;
    if |fuzzy| > 1 && HasContext(al, context) then NarrowByContext(nt, fuzzy, |nq|, Norm(al, context.value)) else fuzzy
  }

  function Fuzzy(al: Alphabet, text: string, quote: string, context: Option<string>): Resolution {
    if Norm(al, quote) == "" then Unmappable
    else if |Occurrences(Norm(al, text), Norm(al, quote))| == 0 then NotFound
    else
      var hits := FuzzyHits(al, text, quote, context);
      if |hits| == 1 then Resolved(NormMap(al, text)[hits[0]]) else Ambiguous
  }

  function LocateQuote(al: Alphabet, text: string, quote: string, context: Option<string>): Resolution {
    if Blank(al, text) || Blank(al, quote) then Unmappable
    else
      var exact := Occurrences(text, quote);
      if |exact| == 1 then Resolved(exact[0])
      else if |exact| > 1 then
        if HasContext(al, context) then Disambiguate(al, text, quote, exact, context.value) else Ambiguous
      else Fuzzy(al, text, quote, context)
  }

  // ---- Never guesses -------------------------------------------------------------------------

  /** The source passage `text[from..end]` reads like the quote once normalised. */
  ghost predicate ReadsAs(al: Alphabet, text: string, from: nat, end: nat, quote: string) {
    from <= end <= |text| && Norm(al, text[from..end]) == Norm(al, quote)
  }

  /** What a span that starts at a kept character emits is its own normal form, up to trimming. */
  lemma SpanFromKept(al: Alphabet, text: string, off: nat, end: nat)
    requires Sane(al) && off < end <= |text| && Kept(al, text[off])
    ensures Pre(al, text, end) == Pre(al, text, off) + Pre(al, text[off..end], end - off)
  {
    hide Feed;
    assert Pre(al, text, end) == Feed(al, Pre(al, text, off), text, off, end) by {
      FeedSplit(al, "", text, 0, off, end);
    }
    assert Feed(al, Pre(al, text, off), text, off, end) == Pre(al, text, off) + Feed(al, "", text, off, end) by {
      FeedFromKept(al, Pre(al, text, off), text, off, end);
    }
    FeedCopy(al, "", text, off, text[off..end], 0, end - off);
  }

  lemma OccurrenceStartsKept(al: Alphabet, text: string, quote: string, p: nat)
    requires Sane(al) && Norm(al, quote) != "" && OccursAt(Norm(al, text), Norm(al, quote), p)
    ensures NormMap(al, text)[p] < |text| && Kept(al, text[NormMap(al, text)[p]])
  {
    PreChar(al, text, |text|, p);
    NormEdges(al, quote);
    assert Norm(al, quote)[0] == Norm(al, text)[p + 0];
  }

  /** The span under a normalised occurrence emits exactly the occurrence. */
  lemma SpanEmits(al: Alphabet, text: string, off: nat, end: nat, p: nat, nq: string)
    requires Sane(al) && off < end <= |text| && Kept(al, text[off])
    requires |Pre(al, text, off)| == p && |Pre(al, text, end)| == p + |nq|
    requires |Pre(al, text, end)| <= |Pre(al, text, |text|)| && forall k :: 0 <= k < |nq| ==> nq[k] == Pre(al, text, |text|)[p + k]
    ensures Pre(al, text[off..end], end - off) == nq
  {
    var all, x, y := Pre(al, text, |text|), Pre(al, text, off), Pre(al, text[off..end], end - off);
    SpanFromKept(al, text, off, end);
    PreGrows(al, text, end, |text|);
    assert x + y <= all && |y| == |nq|;
    forall k | 0 <= k < |nq| ensures y[k] == nq[k] {
      assert y[k] == (x + y)[p + k] == all[p + k];
    }
  }

  lemma HitReadsAsQuote(al: Alphabet, text: string, quote: string, p: nat, off: nat, end: nat)
    requires Sane(al) && off < end <= |text| && Kept(al, text[off])
    requires OccursAt(Pre(al, text, |text|), Norm(al, quote), p)
    requires |Pre(al, text, off)| == p && |Pre(al, text, end)| == p + |Norm(al, quote)|
    ensures ReadsAs(al, text, off, end, quote)
  {
    SpanEmits(al, text, off, end, p, Norm(al, quote));
    ReadsAsIntro(al, text, off, end, quote);
  }

  /** A fuzzy hit starts a source span that normalises to the normalised quote. */
  lemma FuzzyHitReadsAsQuote(al: Alphabet, text: string, quote: string, p: nat) returns (end: nat)
    requires Sane(al) && OneToOne(al, text)
    requires Norm(al, quote) != "" && OccursAt(Norm(al, text), Norm(al, quote), p)
    ensures ReadsAs(al, text, NormMap(al, text)[p], end, quote)
  {
    var n := |Norm(al, quote)|;
    OccurrenceStartsKept(al, text, quote, p);
    var off := NormMap(al, text)[p];
    end := SpanBounds(al, text, p, n);
    HitReadsAsQuote(al, text, quote, p, off, end);
  }

  lemma ReadsAsIntro(al: Alphabet, text: string, off: nat, end: nat, quote: string)
    requires Sane(al) && off <= end <= |text| && Pre(al, text[off..end], end - off) == Norm(al, quote)
    ensures ReadsAs(al, text, off, end, quote)
  {
    NormEdges(al, quote);
    assert |text[off..end]| == end - off;
  }

  lemma SpanBounds(al: Alphabet, text: string, p: nat, n: nat) returns (end: nat)
    requires Sane(al) && OneToOne(al, text) && 0 < n && p + n <= |Pre(al, text, |text|)|
    ensures Offsets(al, text, |text|)[p] < end <= |text|
    ensures |Pre(al, text, Offsets(al, text, |text|)[p])| == p && |Pre(al, text, end)| == p + n
  {
    hide Feed;
    PrefixLength(al, text, p);
    PrefixLength(al, text, p + n - 1);
    OffsetsAscend(al, text, p, p + n - 1);
    end := Offsets(al, text, |text|)[p + n - 1] + 1;
  }

  lemma NormOfOne(al: Alphabet, c: char)
    requires Sane(al) && Kept(al, c)
    ensures Norm(al, [c]) == al.lower(c)
  {
    assert SaneAt(al, c);
    assert Settled(al, al.lower(c)[|al.lower(c)| - 1]);
    assert Pre(al, [c], 0) == "";
    assert Pre(al, [c], 1) == al.lower(c);
  }

  /** Lowercasing that is not one-to-one: a hit inside a long lowercase form does not start its span. */
  lemma LongLowercaseMisleads(al: Alphabet, big: char, i: char, dot: char)
    requires Sane(al) && Kept(al, big) && al.lower(big) == [i, dot] && i != dot
    ensures LocateQuote(al, [big], [dot], None) == Resolved(0)
    ensures forall end :: end <= 1 ==> !ReadsAs(al, [big], 0, end, [dot])
  {
    assert SaneAt(al, big);
    assert Settled(al, al.lower(big)[1]);
    NormOfOne(al, big);
    NormOfOne(al, dot);
    assert |al.lower(big)| == 2 && |al.lower(dot)| == 1;
    forall k: nat ensures !OccursAt([big], [dot], k) {
      if k == 0 { assert [big][0] != [dot][0]; }
    }
    AscendingUnique(Occurrences([big], [dot]), []);
    var fuzzy := Occurrences([i, dot], [dot]);
    assert OccursAt([i, dot], [dot], 1);
    forall k | k in fuzzy ensures k == 1 {
      assert [dot][0] == [i, dot][k + 0];
    }
    SingletonIff(fuzzy, 1);
    forall end | end <= 1 ensures !ReadsAs(al, [big], 0, end, [dot]) {
      if end == 0 {
        assert [big][0..0] == "" && Pre(al, "", 0) == "";
      } else if end == 1 {
        assert [big][0..1] == [big];
      }
    }
  }

  /** Each occurrence of each quote's normal form starts a passage that reads like the quote. */
  ghost predicate HitsReadAsQuotes(al: Alphabet, text: string) {
    forall quote, p :: Norm(al, quote) != "" && OccursAt(Norm(al, text), Norm(al, quote), p) ==> HitReads(al, text, quote, p)
  }

  ghost predicate HitReads(al: Alphabet, text: string, quote: string, p: nat)
    requires p < |NormMap(al, text)|
  {
    exists end :: ReadsAs(al, text, NormMap(al, text)[p], end, quote)
  }

  /** A passage from a kept character reads as at least all that character lowercases to. */
  lemma StartsWithLowered(al: Alphabet, t: string)
    requires Sane(al) && t != "" && Kept(al, t[0])
    ensures |Norm(al, t)| >= |al.lower(t[0])|
  {
    hide Feed;
    var low := al.lower(t[0]);
    assert SaneAt(al, t[0]) && Settled(al, low[|low| - 1]);
    EmptyPre(al, t);
    PreStep(al, t, 0);
    PreGrows(al, t, 1, |t|);
  }

  /** Exactly when the fuzzy tier can be trusted with a text, whatever is quoted: no kept character lowercases to several. */
  lemma {:induction false} FuzzyHitsReadAsQuotesIff(al: Alphabet, text: string)
    requires Sane(al)
    ensures HitsReadAsQuotes(al, text) <==> OneToOne(al, text)
  {
    hide Norm, NormMap, ReadsAs;
    if OneToOne(al, text) {
      forall quote, p: nat | Norm(al, quote) != "" && OccursAt(Norm(al, text), Norm(al, quote), p) ensures HitReads(al, text, quote, p) {
        var end := FuzzyHitReadsAsQuote(al, text, quote, p);
      }
    } else {
      var i :| 0 <= i < |text| && Kept(al, text[i]) && |al.lower(text[i])| != 1;
      assert SaneAt(al, text[i]);
      var quote, p := LongLowercaseQuote(al, text, i);
      assert !HitReads(al, text, quote, p);
    }
  }

  /** Quoting the second character of a long lowercase form finds a place that reads longer than the quote. */
  lemma LongLowercaseQuote(al: Alphabet, text: string, i: nat) returns (quote: string, p: nat)
    requires Sane(al) && i < |text| && Kept(al, text[i]) && |al.lower(text[i])| > 1
    ensures Norm(al, quote) != "" && OccursAt(Norm(al, text), Norm(al, quote), p) && !HitReads(al, text, quote, p)
  {
    var k := RepeatsWhenNot(al, text, i);
    p := k + 1;
    var c := Norm(al, text)[p];
    quote := [c];
    MapShape(al, text);
    assert SaneAt(al, text[i]) && ComesFrom(al, c, text[i]);
    assert Settled(al, c);
    NormOfOne(al, c);
    hide Norm, NormMap, Pre, Offsets, Tidy, Feed, Emit;
    forall end: nat ensures !ReadsAs(al, text, i, end, quote) {
      if i < end <= |text| {
        StartsWithLowered(al, text[i..end]);
      } else if end == i {
        assert text[i..i] == "";
        NormOfNothing(al);
      }
    }
  }

  lemma NormOfNothing(al: Alphabet)
    ensures Norm(al, "") == ""
  {
  }

  /** The first character of a text that adds anything at its start is a kept one. */
  lemma {:induction false} FirstKept(al: Alphabet, s: string, i: nat) returns (k: nat)
    requires Sane(al) && i <= |s| && Pre(al, s, i) != ""
    ensures k < i && Kept(al, s[k]) && Pre(al, s, k) == ""
  {
    hide Feed;
    assert Pre(al, s, 0) == "" by { EmptyPre(al, s); }
    PreStep(al, s, i - 1);
    if Pre(al, s, i - 1) != "" {
      k := FirstKept(al, s, i - 1);
    } else {
      k := i - 1;
    }
  }

  /** Every exact occurrence of a quote is also an occurrence of its normalised form. */
  lemma ExactIsNormalised(al: Alphabet, text: string, quote: string, o: nat) returns (p: nat)
    requires Sane(al) && Norm(al, quote) != "" && OccursAt(text, quote, o)
    ensures OccursAt(Norm(al, text), Norm(al, quote), p)
    ensures o <= NormMap(al, text)[p] < o + |quote|
  {
    var k := OccurrenceKept(al, text, quote, o);
    p := |Pre(al, text, o + k)|;
    PieceOccurs(al, text, quote, o + k, o + |quote|);
    EmitsFirst(al, text, o + k, p);
  }

  lemma OccurrenceKept(al: Alphabet, text: string, quote: string, o: nat) returns (k: nat)
    requires Sane(al) && Norm(al, quote) != "" && OccursAt(text, quote, o)
    ensures k < |quote| && Kept(al, text[o + k])
    ensures Pre(al, text, o + |quote|) == Pre(al, text, o + k) + Pre(al, quote, |quote|)
  {
    hide Feed;
    k := FirstKept(al, quote, |quote|);
    assert quote[k] == text[o + k];
    OccurrenceEmits(al, text, quote, o, k);
  }

  lemma PieceOccurs(al: Alphabet, text: string, quote: string, off: nat, end: nat)
    requires Sane(al) && Norm(al, quote) != "" && off <= end <= |text|
    requires Pre(al, text, end) == Pre(al, text, off) + Pre(al, quote, |quote|)
    ensures OccursAt(Norm(al, text), Norm(al, quote), |Pre(al, text, off)|)
  {
    PreGrows(al, text, end, |text|);
    NormEdges(al, quote);
  }

  lemma OccurrenceEmits(al: Alphabet, text: string, quote: string, o: nat, k: nat)
    requires Sane(al) && OccursAt(text, quote, o) && k < |quote| && Kept(al, quote[k]) && Pre(al, quote, k) == ""
    ensures Pre(al, text, o + |quote|) == Pre(al, text, o + k) + Pre(al, quote, |quote|)
  {
    hide Feed;
    var off, end := o + k, o + |quote|;
    assert Pre(al, text, end) == Feed(al, Pre(al, text, off), text, off, end) by {
      FeedSplit(al, "", text, 0, off, end);
    }
    assert Feed(al, Pre(al, text, off), text, off, end) == Pre(al, text, off) + Feed(al, "", text, off, end) by {
      assert quote[k] == text[o + k];
      FeedFromKept(al, Pre(al, text, off), text, off, end);
    }
    assert Feed(al, "", text, off, end) == Feed(al, "", quote, k, |quote|) by {
      FeedCopy(al, "", quote, k, text, off, |quote| - k);
    }
    assert Pre(al, quote, |quote|) == Feed(al, "", quote, k, |quote|) by {
      FeedSplit(al, "", quote, 0, k, |quote|);
    }
  }

  lemma EmitsFirst(al: Alphabet, text: string, off: nat, p: nat)
    requires Sane(al) && off < |text| && Kept(al, text[off]) && p == |Pre(al, text, off)| && p < |Norm(al, text)|
    ensures NormMap(al, text)[p] == off
  {
    assert SaneAt(al, text[off]);
    EmittedAt(al, text, off, p);
  }

  // ---- The normalised-context tier -----------------------------------------------------------

  /** Where an exact occurrence lands: the first source character from it on that was emitted at all. */
  ghost predicate LandsAt(al: Alphabet, text: string, o: nat, off: nat) {
    exists x :: FirstAtLeast(NormMap(al, text), o) == Some(x) && x < |NormMap(al, text)| && NormMap(al, text)[x] == off
  }

  /**
   * Exactly when that tier's answer is itself an exact occurrence: when the occurrence's own first
   * character adds something after what stands before it. An emphasis mark never does, a kept character
   * always, and white space only after something other than white space.
   */
  lemma LandingIsOccurrenceIff(al: Alphabet, text: string, quote: string, o: nat, off: nat)
    requires Sane(al) && quote != "" && OccursAt(text, quote, o) && LandsAt(al, text, o, off)
    ensures OccursAt(text, quote, off) <==> Emit(al, Pre(al, text, o), quote[0]) != ""
    ensures off >= o && (OccursAt(text, quote, off) <==> off == o)
  {
    LandingCharacters(al, text, o, off);
    assert quote[0] == text[o + 0];
    assert OccursAt(text, quote, off) ==> quote[0] == text[off + 0];
    assert SaneAt(al, quote[0]);
  }

  /** Between the occurrence and its landing nothing was emitted; at the landing something was. */
  lemma LandingCharacters(al: Alphabet, text: string, o: nat, off: nat)
    requires Sane(al) && o < |text| && LandsAt(al, text, o, off)
    ensures o <= off < |text| && Pre(al, text, o) == Pre(al, text, off)
    ensures Emit(al, Pre(al, text, off), text[off]) != ""
    ensures off > o ==> Emit(al, Pre(al, text, o), text[o]) == ""
  {
    var x :| FirstAtLeast(NormMap(al, text), o) == Some(x) && x < |NormMap(al, text)| && NormMap(al, text)[x] == off;
    LandingIndex(al, text, o, x);
    OffsetsCount(al, text, |text|, 0, x);
    EmittedAt(al, text, off, x);
    NoEmissionBetween(al, text, o, off);
  }

  lemma LandingIndex(al: Alphabet, text: string, o: nat, x: nat)
    requires o <= |text| && FirstAtLeast(NormMap(al, text), o) == Some(x)
    ensures x == |Pre(al, text, o)|
  {
    OffsetsCount(al, text, |text|, o, x);
    if x > 0 {
      assert NormMap(al, text)[x - 1] == Offsets(al, text, |text|)[x - 1];
      OffsetsCount(al, text, |text|, o, x - 1);
    }
  }

  lemma NoEmissionBetween(al: Alphabet, text: string, o: nat, off: nat)
    requires o <= off < |text| && |Pre(al, text, off)| <= |Pre(al, text, o)|
    ensures Pre(al, text, o) == Pre(al, text, off)
    ensures off > o ==> Emit(al, Pre(al, text, o), text[o]) == ""
  {
    PreGrows(al, text, o, off);
    if off > o {
      PreGrows(al, text, o + 1, off);
    }
  }

  // ---- What the locator's answer means -------------------------------------------------------

  /** The only place in `hay` where `needle` occurs. */
  ghost predicate OnlyAt(hay: string, needle: string, i: nat) {
    OccursAt(hay, needle, i) && forall j: nat :: OccursAt(hay, needle, j) ==> j == i
  }

  ghost predicate Absent(hay: string, needle: string) {
    forall j: nat :: !OccursAt(hay, needle, j)
  }

  lemma OccurrencesCount(hay: string, needle: string, i: nat)
    requires needle != ""
    ensures Occurrences(hay, needle) == [i] <==> OnlyAt(hay, needle, i)
    ensures Occurrences(hay, needle) == [] <==> Absent(hay, needle)
  {
    var r := Occurrences(hay, needle);
    SingletonIff(r, i);
    if Absent(hay, needle) { AscendingUnique(r, []); }
    assert r == [] ==> forall j: nat :: j in r <==> OccursAt(hay, needle, j);
    assert OnlyAt(hay, needle, i) ==> forall j :: j in r <==> j == i;
    assert r == [i] ==> forall j: nat :: j in r <==> OccursAt(hay, needle, j);
  }

  /**
   * Without context, a quote resolves exactly to the only place it occurs, or, when it does not occur
   * verbatim, to the source of the only place its normalised form occurs; nothing else ever resolves.
   */
  lemma ResolvesOnlyUniqueMatch(al: Alphabet, text: string, quote: string, off: nat)
    requires !Blank(al, text) && !Blank(al, quote)
    ensures LocateQuote(al, text, quote, None) == Resolved(off) <==>
      || OnlyAt(text, quote, off)
      || (Absent(text, quote) && Norm(al, quote) != "" && exists p: nat :: OnlyAt(Norm(al, text), Norm(al, quote), p) && NormMap(al, text)[p] == off)
  {
    hide Norm, NormMap, Occurrences;
    var exact := Occurrences(text, quote);
    OccurrencesCount(text, quote, off);
    if |exact| == 1 {
      OccurrencesCount(text, quote, exact[0]);
    }
    if Norm(al, quote) != "" {
      var nt, nq := Norm(al, text), Norm(al, quote);
      var fuzzy := Occurrences(nt, nq);
      forall p: nat ensures fuzzy == [p] <==> OnlyAt(nt, nq, p) {
        OccurrencesCount(nt, nq, p);
      }
      if |fuzzy| == 1 { assert fuzzy == [fuzzy[0]]; }
    }
  }

  /** The source of the only place in the text where the quote's normal form occurs. */
  ghost predicate OnlyFuzzyAt(al: Alphabet, text: string, quote: string, off: nat) {
    Norm(al, quote) != "" && exists p: nat :: OnlyAt(Norm(al, text), Norm(al, quote), p) && NormMap(al, text)[p] == off
  }

  /** When there is nothing to map: text or quote is white space, or a quote that does not occur has an empty normal form. */
  lemma {:induction false} UnmappableIff(al: Alphabet, text: string, quote: string, context: Option<string>)
    ensures LocateQuote(al, text, quote, context) == Unmappable <==>
            || (forall i :: 0 <= i < |text| ==> al.space(text[i]))
            || (forall i :: 0 <= i < |quote| ==> al.space(quote[i]))
            || (Absent(text, quote) && Norm(al, quote) == "")
  {
    hide Norm, NormMap, Occurrences, FuzzyHits, Landings, NarrowByContext;
    if !Blank(al, quote) { OccurrencesCount(text, quote, 0); }
  }

  /** And nothing is found exactly when, with something to map, neither the quote nor its normal form occurs. */
  lemma {:induction false} NotFoundIff(al: Alphabet, text: string, quote: string, context: Option<string>)
    ensures LocateQuote(al, text, quote, context) == NotFound <==>
            && LocateQuote(al, text, quote, context) != Unmappable
            && Absent(text, quote) && Absent(Norm(al, text), Norm(al, quote))
  {
    hide Norm, NormMap, Occurrences, FuzzyHits, Landings, NarrowByContext, OccursAt;
    if !Blank(al, quote) { OccurrencesCount(text, quote, 0); }
    if Norm(al, quote) != "" { OccurrencesCount(Norm(al, text), Norm(al, quote), 0); }
  }

  /** Context has no say in a match that is alone. */
  lemma {:induction false} SingleMatchResolves(al: Alphabet, text: string, quote: string, context: Option<string>, off: nat)
    requires LocateQuote(al, text, quote, context) != Unmappable
    requires OnlyAt(text, quote, off) || (Absent(text, quote) && OnlyFuzzyAt(al, text, quote, off))
    ensures LocateQuote(al, text, quote, context) == Resolved(off)
  {
    OccurrencesCount(text, quote, off);
    hide Norm, NormMap, Occurrences, ByNormalizedContext;
    if !OnlyAt(text, quote, off) {
      var p: nat :| OnlyAt(Norm(al, text), Norm(al, quote), p) && NormMap(al, text)[p] == off;
      OccurrencesCount(Norm(al, text), Norm(al, quote), p);
    }
  }

  lemma {:induction false} OnlyKeptStarts(al: Alphabet, s: string, k: nat)
    requires Sane(al) && k <= |s|
    ensures Pre(al, s, k) == "" <==> forall j :: 0 <= j < k ==> !Kept(al, s[j])
  {
    if k > 0 {
      OnlyKeptStarts(al, s, k - 1);
      assert SaneAt(al, s[k - 1]);
    }
  }

  /** Dropping leading characters that emit nothing does not change what a passage reads as. */
  lemma {:induction false} SuffixReadsAs(al: Alphabet, text: string, quote: string, o: nat, k: nat, off: nat)
    requires Sane(al) && OccursAt(text, quote, o) && k < |quote| && Kept(al, quote[k]) && Pre(al, quote, k) == ""
    requires o <= off <= o + k
    ensures ReadsAs(al, text, off, o + |quote|, quote)
  {
    hide Feed;
    var t, d := text[off..o + |quote|], o + k - off;
    assert SameChars(quote, off - o, t, 0, |t|);
    OnlyKeptStarts(al, quote, k);
    assert forall j :: 0 <= j < d ==> t[j] == quote[off - o + j];
    OnlyKeptStarts(al, t, d);
    assert Pre(al, t, |t|) == Feed(al, "", t, d, |t|) by { FeedSplit(al, "", t, 0, d, |t|); }
    assert Pre(al, quote, |quote|) == Feed(al, "", quote, k, |quote|) by { FeedSplit(al, "", quote, 0, k, |quote|); }
    assert SameChars(quote, k, t, d, |quote| - k);
    FeedCopy(al, "", quote, k, t, d, |quote| - k);
  }

  lemma {:induction false} LandingReadsAs(al: Alphabet, text: string, quote: string, o: nat, off: nat)
    requires Sane(al) && quote != "" && OccursAt(text, quote, o) && LandsAt(al, text, o, off) && Norm(al, quote) != ""
    ensures ReadsAs(al, text, off, o + |quote|, quote)
  {
    hide Feed, ReadsAs;
    var k := FirstKept(al, quote, |quote|);
    LandingCharacters(al, text, o, off);
    assert quote[k] == text[o + k];
    assert SaneAt(al, text[o + k]);
    if off > o + k {
      PreGrows(al, text, o, o + k);
      PreStep(al, text, o + k);
      PreGrows(al, text, o + k + 1, off);
    }
    SuffixReadsAs(al, text, quote, o, k, off);
  }

  lemma VerbatimReadsAs(al: Alphabet, text: string, quote: string, o: nat)
    requires OccursAt(text, quote, o)
    ensures ReadsAs(al, text, o, o + |quote|, quote)
  {
    assert text[o..o + |quote|] == quote;
  }

  lemma {:induction false} NormalizedContextReadsAs(al: Alphabet, text: string, quote: string, exact: seq<nat>, context: string, off: nat) returns (end: nat)
    requires Sane(al) && quote != "" && Norm(al, quote) != ""
    requires forall k :: 0 <= k < |exact| ==> OccursAt(text, quote, exact[k])
    requires ByNormalizedContext(al, text, quote, exact, context) == Resolved(off)
    ensures ReadsAs(al, text, off, end, quote)
  {
    hide Norm, NormMap, ReadsAs, Landings, Contains, Window, FirstAtLeast;
    var landed := Landings(NormMap(al, text), exact);
    var nh := NarrowByContext(Norm(al, text), landed, |Norm(al, quote)|, Norm(al, context));
    assert nh[0] in landed;
    var k :| 0 <= k < |landed| && landed[k] == nh[0];
    var j :| 0 <= j < |exact| && FirstAtLeast(NormMap(al, text), exact[j]) == Some(landed[k]);
    end := exact[j] + |quote|;
    LandingReadsAs(al, text, quote, exact[j], off);
  }

  lemma {:induction false} DisambiguatedReadsAs(al: Alphabet, text: string, quote: string, exact: seq<nat>, context: string, off: nat) returns (end: nat)
    requires Sane(al) && quote != "" && Norm(al, quote) != ""
    requires forall k :: 0 <= k < |exact| ==> OccursAt(text, quote, exact[k])
    requires Disambiguate(al, text, quote, exact, context) == Resolved(off)
    ensures ReadsAs(al, text, off, end, quote)
  {
    hide Norm, NormMap, ReadsAs, ByNormalizedContext;
    var hits := NarrowByContext(text, exact, |quote|, context);
    if |hits| == 1 {
      assert hits[0] in exact;
      end := off + |quote|;
      VerbatimReadsAs(al, text, quote, off);
    } else {
      end := NormalizedContextReadsAs(al, text, quote, exact, context, off);
    }
  }

  lemma FuzzyReadsAs(al: Alphabet, text: string, quote: string, context: Option<string>, off: nat) returns (end: nat)
    requires Sane(al) && OneToOne(al, text) && Fuzzy(al, text, quote, context) == Resolved(off)
    ensures ReadsAs(al, text, off, end, quote)
  {
    hide Norm, NormMap, ReadsAs, Occurrences;
    var hits := FuzzyHits(al, text, quote, context);
    end := FuzzyHitReadsAsQuote(al, text, quote, hits[0]);
  }

  /**
   * The locator never guesses: whatever tier answered, the offset starts a passage that reads like the
   * quote. (Only the fuzzy tier needs one-to-one lowercasing, only when nothing matched verbatim.)
   */
  lemma {:induction false} NeverGuesses(al: Alphabet, text: string, quote: string, context: Option<string>, off: nat) returns (end: nat)
    requires Sane(al) && LocateQuote(al, text, quote, context) == Resolved(off)
    requires Absent(text, quote) ==> OneToOne(al, text)
    ensures ReadsAs(al, text, off, end, quote)
  {
    hide Norm, NormMap, ReadsAs, Fuzzy, Disambiguate, Occurrences;
    OccurrencesCount(text, quote, off);
    var exact := Occurrences(text, quote);
    if Norm(al, quote) == "" {
      ResolvedInRange(al, text, quote, context, off);
      NothingReadsAsNothing(al, text, off, quote);
      end := off;
    } else if exact == [] {
      end := FuzzyReadsAs(al, text, quote, context, off);
    } else if |exact| == 1 {
      end := off + |quote|;
      VerbatimReadsAs(al, text, quote, off);
    } else {
      end := DisambiguatedReadsAs(al, text, quote, exact, context.value, off);
    }
  }

  /** A quote with nothing kept in it reads as any empty passage. */
  lemma NothingReadsAsNothing(al: Alphabet, text: string, off: nat, quote: string)
    requires off <= |text| && Norm(al, quote) == ""
    ensures ReadsAs(al, text, off, off, quote)
  {
    assert text[off..off] == "";
  }

  lemma {:induction false} ResolvedInRange(al: Alphabet, text: string, quote: string, context: Option<string>, off: nat)
    requires Sane(al) && LocateQuote(al, text, quote, context) == Resolved(off)
    ensures off <= |text|
  {
    hide Norm, NormMap, Landings, InContext;
    MapShape(al, text);
    var exact := Occurrences(text, quote);
    assert forall k :: 0 <= k < |exact| ==> exact[k] in exact;
  }

  // ---- Exactly one candidate -----------------------------------------------------------------

  /** The context stands around a passage: it starts no further before it, and ends no further after it, than it is long. */
  ghost predicate Around(hay: string, o: nat, len: nat, context: string) {
    exists j: nat :: OccursAt(hay, context, j) && o - |context| <= j && j + |context| <= o + len + |context|
  }

  lemma {:induction false} InContextIff(hay: string, qlen: nat, context: string, o: nat)
    requires o <= |hay|
    ensures InContext(hay, qlen, context)(o) <==> Around(hay, o, qlen, context)
  {
    hide IndexOf;
    var from := if o < |context| then 0 else o - |context|;
    var window := Window(hay, o, qlen, context);
    ContainsIff(window, context);
    if i: nat :| OccursAt(window, context, i) {
      forall k | 0 <= k < |context| ensures context[k] == hay[from + i + k] {
        assert context[k] == window[i + k];
      }
      assert OccursAt(hay, context, from + i);
    }
    if j: nat :| OccursAt(hay, context, j) && o - |context| <= j && j + |context| <= o + qlen + |context| {
      forall k | 0 <= k < |context| ensures context[k] == window[j - from + k] {
        assert context[k] == hay[j + k];
      }
      assert OccursAt(window, context, j - from);
    }
  }

  lemma ContainsIff(hay: string, needle: string)
    ensures Contains(hay, needle) <==> exists i: nat :: OccursAt(hay, needle, i)
  {
    var r := First(Occurs(hay, needle), 0, |hay| + 1);
    if i: nat :| OccursAt(hay, needle, i) {
      assert Occurs(hay, needle)(i) && i < |hay| + 1;
    }
    if r.Some? { assert OccursAt(hay, needle, r.value); }
  }

  /** An occurrence with the context around it. */
  ghost predicate CandidateAt(hay: string, needle: string, context: string, o: nat) {
    OccursAt(hay, needle, o) && Around(hay, o, |needle|, context)
  }

  ghost predicate OnlyCandidate(hay: string, needle: string, context: string, i: nat) {
    forall o: nat :: CandidateAt(hay, needle, context, o) <==> o == i
  }

  lemma {:induction false} CandidatesCount(hay: string, needle: string, context: string, i: nat)
    requires needle != ""
    ensures var hits := NarrowByContext(hay, Occurrences(hay, needle), |needle|, context);
            && (hits == [i] <==> OnlyCandidate(hay, needle, context, i))
            && forall o: nat :: o in hits <==> CandidateAt(hay, needle, context, o)
  {
    var hits := NarrowByContext(hay, Occurrences(hay, needle), |needle|, context);
    SingletonIff(hits, i);
    hide Occurrences, InContext, Select, Around;
    forall o: nat ensures o in hits <==> CandidateAt(hay, needle, context, o) {
      if OccursAt(hay, needle, o) { InContextIff(hay, |needle|, context, o); }
    }
    hide OccursAt;
    assert hits == [i] ==> forall o: nat :: o in hits <==> o == i;
    assert OnlyCandidate(hay, needle, context, i) ==> forall o :: o in hits <==> o == i;
  }

  /** With several occurrences, some of them in context: resolved means exactly one is, and it is the answer. */
  lemma {:induction false} ContextDecides(al: Alphabet, text: string, quote: string, context: string, off: nat)
    requires !Blank(al, text) && !Blank(al, quote) && !Blank(al, context) && quote != ""
    requires |Occurrences(text, quote)| > 1 && exists o: nat :: CandidateAt(text, quote, context, o)
    ensures LocateQuote(al, text, quote, Some(context)) == Resolved(off) <==> OnlyCandidate(text, quote, context, off)
  {
    hide Norm, NormMap, ByNormalizedContext, Fuzzy, InContext, Occurrences, Select, OccursAt, Blank;
    var hits := NarrowByContext(text, Occurrences(text, quote), |quote|, context);
    CandidatesCount(text, quote, context, off);
    hide NarrowByContext, CandidateAt, OnlyCandidate;
    if |hits| == 1 {
      assert hits == [hits[0]];
    }
  }

  /** The same for a quote that only occurs normalised, several times. */
  lemma {:induction false} NormalizedContextDecides(al: Alphabet, text: string, quote: string, context: string, off: nat)
    requires !Blank(al, text) && !Blank(al, quote) && !Blank(al, context) && Norm(al, quote) != ""
    requires Occurrences(text, quote) == [] && |Occurrences(Norm(al, text), Norm(al, quote))| > 1
    ensures LocateQuote(al, text, quote, Some(context)) == Resolved(off) <==>
            exists p: nat :: OnlyCandidate(Norm(al, text), Norm(al, quote), Norm(al, context), p)
                             && p < |NormMap(al, text)| && NormMap(al, text)[p] == off
  {
    hide Norm, NormMap, Disambiguate, InContext, Occurrences;
    var nt, nq, nc := Norm(al, text), Norm(al, quote), Norm(al, context);
    var hits := NarrowByContext(nt, Occurrences(nt, nq), |nq|, nc);
    forall p: nat ensures hits == [p] <==> OnlyCandidate(nt, nq, nc, p) {
      CandidatesCount(nt, nq, nc, p);
    }
    if |hits| == 1 {
      assert hits == [hits[0]];
    }
  }

  // ---- Exactly one candidate, by normalised context ------------------------------------------

  /** An exact occurrence whose landing in the normalised text has the normalised context around it. */
  ghost predicate LandsInContext(al: Alphabet, text: string, quote: string, context: string, o: nat) {
    && OccursAt(text, quote, o)
    && exists x :: FirstAtLeast(NormMap(al, text), o) == Some(x) && Around(Norm(al, text), x, |Norm(al, quote)|, Norm(al, context))
  }

  ghost predicate OnlyLanding(al: Alphabet, text: string, quote: string, context: string, i: nat) {
    forall o: nat :: LandsInContext(al, text, quote, context, o) <==> o == i
  }

  function LandingIn(offsets: seq<nat>, keep: nat -> bool): nat -> bool {
    (o: nat) => FirstAtLeast(offsets, o).Some? && keep(FirstAtLeast(offsets, o).value)
  }

  /** `r` lists where the occurrences `os` land. */
  ghost predicate LandOn(offsets: seq<nat>, os: seq<nat>, r: seq<nat>) {
    |r| == |os| && forall k :: 0 <= k < |r| ==> FirstAtLeast(offsets, os[k]) == Some(r[k])
  }

  lemma SelectStep(x: nat, xs: seq<nat>, keep: nat -> bool)
    ensures Select([x] + xs, keep) == (if keep(x) then [x] else []) + Select(xs, keep)
  {
    assert ([x] + xs)[1..] == xs;
  }

  /** Narrowing the landings is narrowing the occurrences by where they land: two that land together stay two. */
  lemma {:induction false} NarrowedLandings(offsets: seq<nat>, exact: seq<nat>, keep: nat -> bool)
    ensures LandOn(offsets, Select(exact, LandingIn(offsets, keep)), Select(Landings(offsets, exact), keep))
    decreases |exact|
  {
    hide FirstAtLeast, Select, Landings;
    if exact == [] {
      NothingLands(offsets, keep);
    } else {
      var o, rest := exact[0], exact[1..];
      assert exact == [o] + rest;
      NarrowedLandings(offsets, rest, keep);
      SelectStep(o, rest, LandingIn(offsets, keep));
      LandingsStep(offsets, o, rest);
      if x :| FirstAtLeast(offsets, o) == Some(x) {
        SelectStep(x, Landings(offsets, rest), keep);
      }
    }
  }

  lemma NothingLands(offsets: seq<nat>, keep: nat -> bool)
    ensures Select(Landings(offsets, []), keep) == [] && Select([], LandingIn(offsets, keep)) == []
  {
  }

  lemma LandingsStep(offsets: seq<nat>, o: nat, rest: seq<nat>)
    ensures Landings(offsets, [o] + rest) ==
            match FirstAtLeast(offsets, o) case Some(x) => [x] + Landings(offsets, rest) case None => Landings(offsets, rest)
  {
    assert ([o] + rest)[1..] == rest;
  }

  function NarrowedByLanding(al: Alphabet, text: string, quote: string, context: string): seq<nat> {
    NarrowByContext(Norm(al, text), Landings(NormMap(al, text), Occurrences(text, quote)), |Norm(al, quote)|, Norm(al, context))
  }

  lemma {:induction false} NoneVerbatim(al: Alphabet, text: string, quote: string, context: string)
    requires !Blank(al, text) && !Blank(al, quote) && !Blank(al, context)
    requires |Occurrences(text, quote)| > 1 && forall o: nat :: !CandidateAt(text, quote, context, o)
    ensures LocateQuote(al, text, quote, Some(context)) == ByNormalizedContext(al, text, quote, Occurrences(text, quote), context)
  {
    hide Norm, NormMap, Fuzzy, Select, ByNormalizedContext;
    CandidatesCount(text, quote, context, 0);
    var none := NarrowByContext(text, Occurrences(text, quote), |quote|, context);
    AscendingUnique(none, []);
  }

  /** One landing is left exactly when one occurrence lands in context, and it is that occurrence's. */
  lemma {:induction false} LandingsCount(al: Alphabet, text: string, quote: string, context: string, o: nat)
    requires quote != ""
    ensures var nh := NarrowedByLanding(al, text, quote, context);
            OnlyLanding(al, text, quote, context, o) <==> |nh| == 1 && LandsInContext(al, text, quote, context, o)
    ensures var nh := NarrowedByLanding(al, text, quote, context);
            OnlyLanding(al, text, quote, context, o) ==> FirstAtLeast(NormMap(al, text), o) == Some(nh[0])
    ensures |NarrowedByLanding(al, text, quote, context)| == 1 ==> exists i: nat :: LandsInContext(al, text, quote, context, i)
  {
    hide Norm, NormMap, Select, Landings, FirstAtLeast, InContext, Occurrences, OccursAt, Around;
    var exact, offsets := Occurrences(text, quote), NormMap(al, text);
    var keep := InContext(Norm(al, text), |Norm(al, quote)|, Norm(al, context));
    var landing, nh := Select(exact, LandingIn(offsets, keep)), NarrowedByLanding(al, text, quote, context);
    NarrowedLandings(offsets, exact, keep);
    forall i: nat ensures i in landing <==> LandsInContext(al, text, quote, context, i) {
      if x :| FirstAtLeast(offsets, i) == Some(x) {
        InContextIff(Norm(al, text), |Norm(al, quote)|, Norm(al, context), x);
      }
    }
    hide LandsInContext;
    SingletonIff(landing, o);
    if |nh| == 1 {
      assert landing == [landing[0]] && landing[0] in landing;
    }
    if OnlyLanding(al, text, quote, context, o) {
      assert forall y :: y in landing <==> y == o;
      assert landing == [o];
    }
  }

  /**
   * With several occurrences, none of them carrying the context verbatim: resolved means exactly one
   * occurrence lands in the normalised context, and the answer is the source of its landing.
   */
  lemma {:induction false} LandingContextDecides(al: Alphabet, text: string, quote: string, context: string, off: nat)
    requires !Blank(al, text) && !Blank(al, quote) && !Blank(al, context)
    requires |Occurrences(text, quote)| > 1 && forall o: nat :: !CandidateAt(text, quote, context, o)
    ensures LocateQuote(al, text, quote, Some(context)) == Resolved(off) <==>
            exists o: nat :: OnlyLanding(al, text, quote, context, o) && LandsAt(al, text, o, off)
  {
    NoneVerbatim(al, text, quote, context);
    var nh := NarrowedByLanding(al, text, quote, context);
    hide Norm, NormMap, Select, Landings, FirstAtLeast, LandsInContext, OnlyLanding, Occurrences, CandidateAt, LocateQuote;
    if o: nat :| OnlyLanding(al, text, quote, context, o) && LandsAt(al, text, o, off) {
      LandingsCount(al, text, quote, context, o);
    }
    if LocateQuote(al, text, quote, Some(context)) == Resolved(off) {
      LandingsCount(al, text, quote, context, 0);
      var o: nat :| LandsInContext(al, text, quote, context, o);
      LandingsCount(al, text, quote, context, o);
      assert LandsAt(al, text, o, off);
    }
  }
}
