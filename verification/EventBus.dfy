/** Event ids as stream cursors: minted in strictly increasing byte order, replayed in that order. */
module EventBus {
  import opened Basics

  type EventId = string

  const CROCKFORD := "0123456789ABCDEFGHJKMNPQRSTVWXYZ"
  const SEQ_LIMIT := 32_768            // 32^3
  const MS_LIMIT := 35_184_372_088_832 // 32^9

  // ---- Byte order ----------------------------------------------------------------------------

  /** `COLLATE "C"`. */
  predicate Before(a: string, b: string) {
    if b == "" then false else if a == "" then true else a[0] < b[0] || (a[0] == b[0] && Before(a[1..], b[1..]))
  }

  lemma {:induction false} BeforeConcat(x: string, y: string, u: string, v: string)
    requires |x| == |y|
    ensures Before(x + u, y + v) <==> Before(x, y) || (x == y && Before(u, v))
  {
    if x == "" {
      assert x + u == u && y + v == v;
    } else {
      assert (x + u)[1..] == x[1..] + u && (y + v)[1..] == y[1..] + v;
      BeforeConcat(x[1..], y[1..], u, v);
      assert x == y <==> x[0] == y[0] && x[1..] == y[1..] by {
        assert x == [x[0]] + x[1..] && y == [y[0]] + y[1..];
      }
    }
  }

  lemma {:induction false} BeforeTrichotomy(a: string, b: string)
    ensures Before(a, b) || a == b || Before(b, a)
    ensures !(Before(a, b) && Before(b, a)) && !Before(a, a)
  {
    if a != "" && b != "" {
      BeforeTrichotomy(a[1..], b[1..]);
      assert a == [a[0]] + a[1..] && b == [b[0]] + b[1..];
    }
    if a != "" { BeforeTrichotomy(a[1..], a[1..]); }
  }

  lemma {:induction false} BeforeTransitive(a: string, b: string, c: string)
    requires Before(a, b) && Before(b, c)
    ensures Before(a, c)
  {
    if a != "" && a[0] == b[0] && b[0] == c[0] {
      BeforeTransitive(a[1..], b[1..], c[1..]);
    }
  }

  // ---- Fixed-width base 32 -------------------------------------------------------------------

  function Digits(n: nat, len: nat): (r: string)
    ensures |r| == len
  {
    if len == 0 then "" else Digits(n / 32, len - 1) + [CROCKFORD[n % 32]]
  }

  function Pow32(e: nat): (r: nat)
    ensures r > 0
  {
    if e == 0 then 1 else 32 * Pow32(e - 1)
  }

  method Crockford(value: nat, len: nat) returns (out: string)
    ensures out == Digits(value, len)
  {
    var n := value;
    out := "";
    for i := 0 to len
      invariant Digits(value, len) == Digits(n, len - i) + out
    {
      out := [CROCKFORD[n % 32]] + out;
      n := n / 32;
    }
  }

  lemma {:induction false} AlphabetAscends(a: nat, b: nat)
    requires a < 32 && b < 32
    ensures CROCKFORD[a] < CROCKFORD[b] <==> a < b
    ensures CROCKFORD[a] == CROCKFORD[b] <==> a == b
  {
    assert forall i :: 0 <= i < 31 ==> CROCKFORD[i] < CROCKFORD[i + 1];
    if a < b { AscendsFrom(a, b); }
    if b < a { AscendsFrom(b, a); }
  }

  lemma {:induction false} AscendsFrom(a: nat, b: nat)
    requires a < b < 32
    requires forall i :: 0 <= i < 31 ==> CROCKFORD[i] < CROCKFORD[i + 1]
    ensures CROCKFORD[a] < CROCKFORD[b]
  {
    if a + 1 < b { AscendsFrom(a, b - 1); }
    assert CROCKFORD[b - 1] < CROCKFORD[b - 1 + 1];
  }

  lemma {:induction false} ModDigits(n: nat, m: nat)
    requires m > 0
    ensures (n % (32 * m)) / 32 == (n / 32) % m && (n % (32 * m)) % 32 == n % 32
  {
    var q, r := n / (32 * m), n % (32 * m);
    assert n == 32 * m * q + r;
    assert n == 32 * (m * q + r / 32) + r % 32 by {
      assert 32 * m * q == 32 * (m * q);
    }
    assert n / 32 == m * q + r / 32;
    assert 0 <= r / 32 < m;
    ModUnique(n / 32, m, q, r / 32);
  }

  lemma MulMonotone(m: nat, a: nat, b: nat)
    requires a < b
    ensures m * a + m <= m * b
  {
    assert m * b == m * a + m * (b - a);
    assert m * (b - a) == m + m * (b - a - 1);
  }

  lemma {:induction false} QuotientsAgree(m: nat, q: nat, r: nat, q': nat, r': nat)
    requires 0 <= r < m && 0 <= r' < m && m * q + r == m * q' + r'
    ensures q == q' && r == r'
  {
    if q < q' {
      MulMonotone(m, q, q');
    } else if q' < q {
      MulMonotone(m, q', q);
    }
  }

  lemma {:induction false} ModUnique(n: nat, m: nat, q: nat, r: nat)
    requires 0 <= r < m && n == m * q + r
    ensures n % m == r
  {
    QuotientsAgree(m, q, r, n / m, n % m);
  }

  /** The digits order exactly as the numbers do, up to the width. */
  lemma {:induction false} DigitsOrder(a: nat, b: nat, len: nat)
    ensures Before(Digits(a, len), Digits(b, len)) <==> a % Pow32(len) < b % Pow32(len)
    ensures Digits(a, len) == Digits(b, len) <==> a % Pow32(len) == b % Pow32(len)
  {
    if len > 0 {
      var m := Pow32(len - 1);
      DigitsOrder(a / 32, b / 32, len - 1);
      ModDigits(a, m);
      ModDigits(b, m);
      AlphabetAscends(a % 32, b % 32);
      var da, db := Digits(a / 32, len - 1), Digits(b / 32, len - 1);
      BeforeConcat(da, db, [CROCKFORD[a % 32]], [CROCKFORD[b % 32]]);
      assert Before([CROCKFORD[a % 32]], [CROCKFORD[b % 32]]) <==> a % 32 < b % 32 by {
        assert [CROCKFORD[a % 32]][1..] == [CROCKFORD[b % 32]][1..] == "";
      }
      assert da + [CROCKFORD[a % 32]] == db + [CROCKFORD[b % 32]] <==> da == db && CROCKFORD[a % 32] == CROCKFORD[b % 32] by {
        assert (da + [CROCKFORD[a % 32]])[..len - 1] == da && (db + [CROCKFORD[b % 32]])[..len - 1] == db;
        assert (da + [CROCKFORD[a % 32]])[len - 1] == CROCKFORD[a % 32] && (db + [CROCKFORD[b % 32]])[len - 1] == CROCKFORD[b % 32];
      }
    }
  }

  // ---- Minting -------------------------------------------------------------------------------

  datatype Stamp = Stamp(ms: nat, no: nat)

  /** `evt_`, 9 digits of epoch milliseconds, 3 of per-millisecond sequence, 8 random ones. */
  function IdOf(s: Stamp, rand: string): string {
    "evt_" + (Digits(s.ms, 9) + (Digits(s.no, 3) + rand))
  }

  predicate Earlier(s: Stamp, t: Stamp) {
    s.ms < t.ms || (s.ms == t.ms && s.no < t.no)
  }

  /** The stamp after `s` when the clock reads `now`: never behind, whatever the clock does. */
  function Tick(s: Stamp, now: int): (t: Stamp)
    ensures Earlier(s, t) && t.ms >= now
    ensures t.no < SEQ_LIMIT || t.no == s.no + 1
    ensures s.no < SEQ_LIMIT ==> t.no < SEQ_LIMIT
    ensures now > s.ms ==> t.ms == now
    ensures now <= s.ms && s.no + 1 < SEQ_LIMIT ==> t == Stamp(s.ms, s.no + 1)
    ensures now <= s.ms && s.no + 1 >= SEQ_LIMIT ==> t == Stamp(s.ms + 1, 0)
  {
    if now > s.ms then Stamp(now, 0)
    else if s.no + 1 >= SEQ_LIMIT then Stamp(s.ms + 1, 0)
    else Stamp(s.ms, s.no + 1)
  }

  predicate IsRandom(rand: string) {
    |rand| == 8 && forall i :: 0 <= i < 8 ==> rand[i] in CROCKFORD
  }

  /** `^evt_[0-9A-HJKMNP-TV-Z]{20}$`. */
  predicate WellFormedId(id: string) {
    |id| == 24 && id[..4] == "evt_" && forall i :: 4 <= i < 24 ==> id[i] in CROCKFORD
  }

  /** The alphabet leaves out I, L, O and U, which are easily misread. */
  lemma AlphabetIs(c: char)
    ensures c in CROCKFORD <==> '0' <= c <= '9' || ('A' <= c <= 'Z' && c !in "ILOU")
  {
    var digits, letters := "0123456789", "ABCDEFGHJKMNPQRSTVWXYZ";
    assert CROCKFORD == digits + letters;
    InRun(c, digits, '0');
    LettersAre(c);
  }

  lemma LettersAre(c: char)
    ensures c in "ABCDEFGHJKMNPQRSTVWXYZ" <==> 'A' <= c <= 'Z' && c !in "ILOU"
  {
    var toH, toK, toN, toT, toZ := "ABCDEFGH", "JK", "MN", "PQRST", "VWXYZ";
    assert "ABCDEFGHJKMNPQRSTVWXYZ" == toH + toK + toN + toT + toZ;
    assert "ILOU" == ['I', 'L', 'O', 'U'];
    InRun(c, toH, 'A');
    InRun(c, toK, 'J');
    InRun(c, toN, 'M');
    InRun(c, toT, 'P');
    InRun(c, toZ, 'V');
  }

  lemma InRun(c: char, run: string, first: char)
    requires |run| > 0 && forall i :: 0 <= i < |run| ==> run[i] as int == first as int + i
    ensures c in run <==> first as int <= c as int < first as int + |run|
  {
    if first as int <= c as int < first as int + |run| {
      assert run[c as int - first as int] == c;
    }
  }

  /** What an id looks like. */
  lemma WellFormedIff(id: string)
    ensures WellFormedId(id) <==>
            && |id| == 24 && "evt_" <= id
            && forall i :: 4 <= i < 24 ==> '0' <= id[i] <= '9' || ('A' <= id[i] <= 'Z' && id[i] !in "ILOU")
    ensures forall rand: string :: IsRandom(rand) <==>
            |rand| == 8 && forall i :: 0 <= i < 8 ==> '0' <= rand[i] <= '9' || ('A' <= rand[i] <= 'Z' && rand[i] !in "ILOU")
  {
    forall c: char ensures c in CROCKFORD <==> '0' <= c <= '9' || ('A' <= c <= 'Z' && c !in "ILOU") { AlphabetIs(c); }
  }

  class Minter {
    var lastMs: nat
    var seqNo: nat

    constructor ()
      ensures lastMs == 0 && seqNo == 0
    {
      lastMs, seqNo := 0, 0;
    }

    method Mint(now: int, rand: string) returns (id: EventId)
      requires IsRandom(rand) && seqNo < SEQ_LIMIT
      modifies this
      ensures Stamp(lastMs, seqNo) == Tick(old(Stamp(lastMs, seqNo)), now) && seqNo < SEQ_LIMIT
      ensures id == IdOf(Stamp(lastMs, seqNo), rand) && WellFormedId(id)
    {
      var ms := now;
      if ms <= lastMs {
        ms := lastMs;
        seqNo := seqNo + 1;
        if seqNo >= SEQ_LIMIT {
          lastMs := lastMs + 1;
          ms := lastMs;
          seqNo := 0;
        }
      } else {
        lastMs := ms;
        seqNo := 0;
      }
      var a := Crockford(ms, 9);
      var b := Crockford(seqNo, 3);
      id := "evt_" + (a + (b + rand));
      IdsAreWellFormed(Stamp(lastMs, seqNo), rand);
    }
  }

  lemma {:induction false} DigitsInAlphabet(n: nat, len: nat)
    ensures forall i :: 0 <= i < len ==> Digits(n, len)[i] in CROCKFORD
  {
    if len > 0 { DigitsInAlphabet(n / 32, len - 1); }
  }

  lemma IdsAreWellFormed(s: Stamp, rand: string)
    requires IsRandom(rand)
    ensures WellFormedId(IdOf(s, rand))
  {
    DigitsInAlphabet(s.ms, 9);
    DigitsInAlphabet(s.no, 3);
  }

  lemma PowersAreLimits()
    ensures Pow32(9) == MS_LIMIT && Pow32(3) == SEQ_LIMIT
  {
    assert Pow32(3) == 32 * (32 * (32 * Pow32(0)));
    assert Pow32(6) == 32 * (32 * (32 * Pow32(3)));
    assert Pow32(9) == 32 * (32 * (32 * Pow32(6)));
  }

  /** Exactly how two ids compare: by milliseconds modulo 32^9, then sequence, then the random tail. */
  lemma {:induction false} IdOrder(s: Stamp, r: string, t: Stamp, q: string)
    requires s.no < SEQ_LIMIT && t.no < SEQ_LIMIT && |r| == |q|
    ensures Before(IdOf(s, r), IdOf(t, q)) <==>
      || s.ms % MS_LIMIT < t.ms % MS_LIMIT
      || (s.ms % MS_LIMIT == t.ms % MS_LIMIT && (s.no < t.no || (s.no == t.no && Before(r, q))))
  {
    var a, b, c, d := Digits(s.ms, 9), Digits(t.ms, 9), Digits(s.no, 3), Digits(t.no, 3);
    SamePrefix("evt_", a + (c + r), b + (d + q));
    BeforeConcat(a, b, c + r, d + q);
    BeforeConcat(c, d, r, q);
    MillisecondOrder(s.ms, t.ms);
    SequenceOrder(s.no, t.no);
  }

  lemma SamePrefix(p: string, u: string, v: string)
    ensures Before(p + u, p + v) <==> Before(u, v)
  {
    BeforeConcat(p, p, u, v);
    BeforeTrichotomy(p, p);
  }

  lemma MillisecondOrder(a: nat, b: nat)
    ensures Before(Digits(a, 9), Digits(b, 9)) <==> a % MS_LIMIT < b % MS_LIMIT
    ensures Digits(a, 9) == Digits(b, 9) <==> a % MS_LIMIT == b % MS_LIMIT
  {
    PowersAreLimits();
    DigitsOrder(a, b, 9);
  }

  lemma SequenceOrder(a: nat, b: nat)
    requires a < SEQ_LIMIT && b < SEQ_LIMIT
    ensures Before(Digits(a, 3), Digits(b, 3)) <==> a < b
    ensures Digits(a, 3) == Digits(b, 3) <==> a == b
  {
    PowersAreLimits();
    DigitsOrder(a, b, 3);
    SmallMod(a, SEQ_LIMIT);
    SmallMod(b, SEQ_LIMIT);
  }

  lemma SmallMod(n: nat, m: nat)
    requires n < m
    ensures n % m == n
  {
  }

  /** The stamps a sequence of clock readings produces, starting after `s`. */
  ghost predicate Stamps(s: Stamp, clock: seq<int>, stamps: seq<Stamp>) {
    && |stamps| == |clock|
    && forall i :: 0 <= i < |clock| ==> stamps[i] == Tick(if i == 0 then s else stamps[i - 1], clock[i])
  }

  lemma {:induction false} StampsAscend(s: Stamp, clock: seq<int>, stamps: seq<Stamp>, i: nat, j: nat)
    requires Stamps(s, clock, stamps) && s.no < SEQ_LIMIT && i <= j < |stamps|
    ensures i < j ==> Earlier(stamps[i], stamps[j])
    ensures stamps[j].no < SEQ_LIMIT && stamps[i].ms <= stamps[j].ms && stamps[i].no < SEQ_LIMIT
    decreases j
  {
    if j == 0 {
      assert stamps[0] == Tick(s, clock[0]);
    } else {
      StampsAscend(s, clock, stamps, if i == j then i - 1 else i, j - 1);
      assert stamps[j] == Tick(stamps[j - 1], clock[j]);
    }
  }

  /**
   * For any clock, stalled, jumping back or overflowing the per-millisecond sequence, later ids are
   * strictly greater in byte order as long as milliseconds fit nine digits.
   */
  lemma MintedIdsAscend(s: Stamp, clock: seq<int>, stamps: seq<Stamp>, rands: seq<string>, i: nat, j: nat)
    requires Stamps(s, clock, stamps) && s.no < SEQ_LIMIT && i < j < |stamps| == |rands|
    requires IsRandom(rands[i]) && IsRandom(rands[j])
    requires stamps[j].ms < MS_LIMIT
    ensures Before(IdOf(stamps[i], rands[i]), IdOf(stamps[j], rands[j]))
  {
    StampsAscend(s, clock, stamps, i, j);
    SmallMod(stamps[i].ms, MS_LIMIT);
    SmallMod(stamps[j].ms, MS_LIMIT);
    IdOrder(stamps[i], rands[i], stamps[j], rands[j]);
  }

  /** At 32^9 milliseconds the order wraps around. */
  lemma {:induction false} IdsWrap(r: string, q: string)
    requires |r| == |q|
    ensures Tick(Stamp(MS_LIMIT - 1, 0), MS_LIMIT) == Stamp(MS_LIMIT, 0)
    ensures Before(IdOf(Stamp(MS_LIMIT, 0), q), IdOf(Stamp(MS_LIMIT - 1, 0), r))
  {
    IdOrder(Stamp(MS_LIMIT, 0), q, Stamp(MS_LIMIT - 1, 0), r);
  }

  // ---- Replay --------------------------------------------------------------------------------

  const REPLAY_MAX := 500

  ghost predicate Ascending(ids: seq<EventId>) {
    forall i, j :: 0 <= i < j < |ids| ==> Before(ids[i], ids[j])
  }

  /** Every id after `after`, in order. */
  ghost predicate IsListing(outbox: set<EventId>, after: EventId, all: seq<EventId>) {
    Ascending(all) && forall e :: e in all <==> e in outbox && Before(after, e)
  }

  function Limited(all: seq<EventId>, n: nat): seq<EventId> {
    all[..if |all| < n then |all| else n]
  }

  /** `WHERE event_id > after ORDER BY event_id LIMIT n`. */
  ghost predicate IsPage(outbox: set<EventId>, after: EventId, n: nat, out: seq<EventId>) {
    exists all :: IsListing(outbox, after, all) && out == Limited(all, n)
  }

  /** `ORDER BY event_id DESC LIMIT n`, turned round: the greatest ids, oldest first. */
  ghost predicate IsRecent(outbox: set<EventId>, n: nat, out: seq<EventId>) {
    exists all :: Ascending(all) && Elements(all) == outbox && out == all[if |all| < n then 0 else |all| - n..]
  }

  /** What a replay answers: after a minted id the next page, without an id the latest events, for any other id nothing. */
  ghost predicate IsReplay(outbox: set<EventId>, after: EventId, n: nat, out: seq<EventId>) {
    if after == "" then IsRecent(outbox, n, out)
    else if WellFormedId(after) then IsPage(outbox, after, n, out)
    else out == []
  }

  lemma Least(s: set<EventId>) returns (m: EventId)
    requires s != {}
    ensures m in s && forall e :: e in s && e != m ==> Before(m, e)
  {
    m :| m in s;
    if s != {m} {
      var other := Least(s - {m});
      BeforeTrichotomy(m, other);
      if Before(other, m) {
        m := other;
      } else {
        forall e | e in s && e != m ensures Before(m, e) {
          if e != other { BeforeTransitive(m, other, e); }
        }
      }
    }
  }

  lemma Listing(s: set<EventId>) returns (all: seq<EventId>)
    ensures |all| == |s| && Ascending(all) && forall e :: e in all <==> e in s
  {
    if s == {} {
      all := [];
    } else {
      var m := Least(s);
      var rest := Listing(s - {m});
      all := [m] + rest;
    }
  }

  /** `max(1, min(500, floor(limit) || 100))`. */
  function ReplayLimit(limit: int): (n: nat)
    ensures 1 <= n <= REPLAY_MAX
    ensures 1 <= limit <= 500 ==> n == limit
    ensures (limit < 0 ==> n == 1) && (limit == 0 ==> n == 100) && (limit > 500 ==> n == 500)
  {
    var l := if limit == 0 then 100 else limit;
    if l < 1 then 1 else if l > REPLAY_MAX then REPLAY_MAX else l
  }

  class Outbox {
    var ids: set<EventId>

    constructor ()
      ensures ids == {}
    {
      ids := {};
    }

    method Insert(id: EventId)
      modifies this
      ensures ids == old(ids) + {id}
    {
      ids := ids + {id};
    }

    /** `after` is empty when no id was given. */
    method Replay(after: EventId, limit: int) returns (out: seq<EventId>)
      ensures IsReplay(ids, after, ReplayLimit(limit), out)
    {
      out := [];
      var n := ReplayLimit(limit);
      if after == "" {
        out := Recent(n);
        return;
      }
      if !WellFormedId(after) { return; }
      var left := set e | e in ids && Before(after, e);
      while left != {} && |out| < n
        invariant |out| <= n && PageSoFar(ids, after, out, left)
        decreases |left|
      {
        var m := TakeLeast(left);
        left := left - {m};
        out := out + [m];
      }
      PageComplete(ids, after, n, out, left);
    }

    /** Taken from the greatest down, then turned round. */
    method Recent(n: nat) returns (out: seq<EventId>)
      ensures IsRecent(ids, n, out)
    {
      out := [];
      var left := ids;
      while left != {} && |out| < n
        invariant |out| <= n && RecentSoFar(ids, out, left)
        decreases |left|
      {
        var m := TakeGreatest(left);
        left := left - {m};
        out := [m] + out;
      }
      RecentComplete(ids, n, out, left);
    }

    method TakeLeast(left: set<EventId>) returns (m: EventId)
      requires left != {}
      ensures m in left && forall e :: e in left && e != m ==> Before(m, e)
    {
      ghost var least := Least(left);
      m :| m in left && forall e :: e in left && e != m ==> Before(m, e);
    }

    method TakeGreatest(left: set<EventId>) returns (m: EventId)
      requires left != {}
      ensures m in left && forall e :: e in left && e != m ==> Before(e, m)
    {
      ghost var all := Listing(left);
      HasLast(left, all);
      m :| m in left && forall e :: e in left && e != m ==> Before(e, m);
    }
  }

  lemma HasLast(s: set<EventId>, all: seq<EventId>)
    requires s != {} && |all| == |s| && Ascending(all) && forall e :: e in all <==> e in s
    ensures exists m :: m in s && forall e :: e in s && e != m ==> Before(e, m)
  {
    var m := all[|all| - 1];
    forall e | e in s && e != m ensures Before(e, m) {
      var i :| 0 <= i < |all| && all[i] == e;
    }
    assert m in s;
  }

  ghost predicate RecentSoFar(outbox: set<EventId>, out: seq<EventId>, left: set<EventId>) {
    && Ascending(out)
    && (forall e :: e in out || e in left <==> e in outbox)
    && (forall i, f :: 0 <= i < |out| && f in left ==> Before(f, out[i]))
  }

  lemma RecentComplete(outbox: set<EventId>, n: nat, out: seq<EventId>, left: set<EventId>)
    requires RecentSoFar(outbox, out, left) && |out| <= n && (left == {} || |out| == n)
    ensures IsRecent(outbox, n, out)
  {
    var rest := Listing(left);
    var all := rest + out;
    assert forall j :: 0 <= j < |rest| ==> rest[j] in left;
    assert Ascending(all);
    assert forall e :: e in all <==> e in rest || e in out;
    assert Elements(all) == outbox;
    assert out == all[|rest|..] && (|out| < n ==> rest == []);
  }

  ghost predicate PageSoFar(outbox: set<EventId>, after: EventId, out: seq<EventId>, left: set<EventId>) {
    && Ascending(out)
    && (forall e :: e in out || e in left <==> e in outbox && Before(after, e))
    && (forall i, f :: 0 <= i < |out| && f in left ==> Before(out[i], f))
  }

  lemma PageComplete(outbox: set<EventId>, after: EventId, n: nat, out: seq<EventId>, left: set<EventId>)
    requires PageSoFar(outbox, after, out, left) && |out| <= n && (left == {} || |out| == n)
    ensures IsPage(outbox, after, n, out)
  {
    var rest := Listing(left);
    assert forall j :: 0 <= j < |rest| ==> rest[j] in left;
    assert IsListing(outbox, after, out + rest);
    assert Limited(out + rest, n) == out;
  }

  /** Only one ascending sequence has given elements. */
  lemma {:induction false} AscendingUnique(p: seq<EventId>, q: seq<EventId>)
    requires Ascending(p) && Ascending(q) && forall e :: e in p <==> e in q
    ensures p == q
  {
    HasFirst(p);
    HasFirst(q);
    if p != [] && q != [] {
      assert p[0] in q && p[0] in p;
      assert q[0] in p && q[0] in q;
      BeforeTrichotomy(p[0], q[0]);
      TailElements(p);
      TailElements(q);
      assert Ascending(p[1..]) && Ascending(q[1..]);
      assert p == [p[0]] + p[1..] && q == [q[0]] + q[1..];
      AscendingUnique(p[1..], q[1..]);
    }
  }

  lemma HasFirst(p: seq<EventId>)
    ensures p != [] ==> exists e :: e in p
  {
    if p != [] { assert p[0] in p; }
  }

  lemma TailElements(p: seq<EventId>)
    requires Ascending(p) && p != []
    ensures forall e :: e in p[1..] <==> e in p && e != p[0]
    ensures forall e :: e in p && e != p[0] ==> Before(p[0], e)
  {
    BeforeTrichotomy(p[0], p[0]);
    forall e | e in p[1..] ensures e != p[0] && Before(p[0], e) {
      var k :| 0 <= k < |p[1..]| && p[1..][k] == e;
      assert p[k + 1] == e;
    }
    assert p == [p[0]] + p[1..];
  }

  function Present(minted: seq<EventId>, outbox: set<EventId>): (r: seq<EventId>)
    ensures forall e :: e in r <==> e in minted && e in outbox
  {
    if minted == [] then []
    else (if minted[0] in outbox then [minted[0]] else []) + Present(minted[1..], outbox)
  }

  lemma {:induction false} PresentAscends(minted: seq<EventId>, outbox: set<EventId>)
    requires Ascending(minted)
    ensures Ascending(Present(minted, outbox))
  {
    if minted != [] {
      assert Ascending(minted[1..]);
      PresentAscends(minted[1..], outbox);
      forall e | e in Present(minted[1..], outbox) ensures Before(minted[0], e) {
        var k :| 0 <= k < |minted[1..]| && minted[1..][k] == e;
        assert minted[k + 1] == e;
      }
    }
  }

  lemma PageAfterAscending(minted: seq<EventId>, k: nat, outbox: set<EventId>, n: nat, out: seq<EventId>)
    requires Ascending(minted) && k < |minted| && outbox <= Elements(minted)
    requires IsPage(outbox, minted[k], n, out)
    ensures
      var later := Present(minted[k + 1..], outbox);
      out == Limited(later, n)
  {
    var rest := minted[k + 1..];
    assert Ascending(rest) by {
      assert forall i :: 0 <= i < |rest| ==> rest[i] == minted[k + 1 + i];
    }
    var later := Present(rest, outbox);
    PresentAscends(rest, outbox);
    forall e | e in outbox ensures Before(minted[k], e) <==> e in rest {
      var i :| 0 <= i < |minted| && minted[i] == e;
      BeforeTrichotomy(minted[k], e);
      if i > k {
        assert rest[i - k - 1] == e;
      }
      forall j | 0 <= j < |rest| ensures Before(minted[k], rest[j]) {
        assert rest[j] == minted[k + 1 + j];
      }
    }
    assert IsListing(outbox, minted[k], later);
    var all :| IsListing(outbox, minted[k], all) && out == Limited(all, n);
    AscendingUnique(all, later);
  }

  function Minted(stamps: seq<Stamp>, rands: seq<string>): seq<EventId>
    requires |stamps| == |rands|
  {
    seq(|stamps|, i requires 0 <= i < |stamps| => IdOf(stamps[i], rands[i]))
  }

  /**
   * Under any clock: replay after a minted id is exactly the first `n` later-minted events that are still
   * in the outbox, in publish order, as long as milliseconds fit nine digits.
   */
  lemma ReplayIsPublishOrder(
    s: Stamp, clock: seq<int>, stamps: seq<Stamp>, rands: seq<string>,
    k: nat, outbox: set<EventId>, n: nat, out: seq<EventId>)
    requires Stamps(s, clock, stamps) && s.no < SEQ_LIMIT && k < |stamps| == |rands|
    requires forall i :: 0 <= i < |stamps| ==> stamps[i].ms < MS_LIMIT && IsRandom(rands[i])
    requires outbox <= Elements(Minted(stamps, rands)) && IsReplay(outbox, Minted(stamps, rands)[k], n, out)
    ensures out == Limited(Present(Minted(stamps, rands)[k + 1..], outbox), n)
  {
    var minted := Minted(stamps, rands);
    forall i, j | 0 <= i < j < |minted| ensures Before(minted[i], minted[j]) {
      MintedIdsAscend(s, clock, stamps, rands, i, j);
    }
    IdsAreWellFormed(stamps[k], rands[k]);
    PageAfterAscending(minted, k, outbox, n, out);
  }
}
