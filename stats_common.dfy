/** What the two statistics generators share: the ObjectId bound that turns a Unix
    timestamp into the smallest ObjectId of that second, the chain of month windows the
    who-are-you statistics are counted over, `krsort` (key-descending order), and the
    totals of the count maps the histograms are checked against. */
module StatsCommon {
  import opened Common

  // ---------------------------------------------------------------------------
  // Hexadecimal text

  predicate IsHexDigit(c: char)
  {
    '0' <= c <= '9' || 'a' <= c <= 'f'
  }

  predicate IsHex(s: string)
  {
    forall i :: 0 <= i < |s| ==> IsHexDigit(s[i])
  }

  /** The lower-case digit `dechex` prints for `d`. */
  function HexDigit(d: nat): (c: char)
    requires d < 16
    ensures IsHexDigit(c)
  {
    if d < 10 then ('0' as int + d) as char else ('a' as int + d - 10) as char
  }

  function DigitValue(c: char): (v: nat)
    requires IsHexDigit(c)
    ensures v < 16 && HexDigit(v) == c
  {
    if c <= '9' then (c as int - '0' as int) else (c as int - 'a' as int) + 10
  }

  /** The number a hex string denotes, most significant digit first. */
  function ParseHex(s: string): nat
    requires IsHex(s)
  {
    if s == [] then 0 else ParseHex(s[..|s| - 1]) * 16 + DigitValue(s[|s| - 1])
  }

  function Pow16(k: nat): (r: nat)
    ensures r >= 1
  {
    if k == 0 then 1 else 16 * Pow16(k - 1)
  }

  /** `dechex` of a non-negative integer: no leading zeros, "0" for zero. */
  function Hex(n: nat): (r: string)
    ensures 1 <= |r| && IsHex(r)
    ensures |r| > 1 ==> r[0] != '0'
  {
    if n < 16 then [HexDigit(n)] else Hex(n / 16) + [HexDigit(n % 16)]
  }

  /** Reading back what `dechex` printed gives the number. */
  lemma {:induction false} HexRoundTrip(n: nat)
    ensures ParseHex(Hex(n)) == n
  {
    if n >= 16 {
      var s := Hex(n);
      assert s[..|s| - 1] == Hex(n / 16);
      HexRoundTrip(n / 16);
    }
  }

  /** `dechex` prints at most `k` digits exactly for the numbers below 16^k. */
  lemma {:induction false} HexLength(n: nat, k: nat)
    requires k >= 1
    ensures |Hex(n)| <= k <==> n < Pow16(k)
  {
    if n >= 16 && k >= 2 {
      HexLength(n / 16, k - 1);
    }
  }

  function Zeros(k: nat): (r: string)
    ensures |r| == k && IsHex(r)
    ensures forall i :: 0 <= i < k ==> r[i] == '0'
  {
    seq(k, _ => '0')
  }

  /** `str_pad($s, $width, "0", STR_PAD_LEFT)`: a string already as long is left alone. */
  function PadLeft(s: string, width: nat): (r: string)
    requires IsHex(s)
    ensures IsHex(r)
    ensures |r| == if |s| >= width then |s| else width
  {
    if |s| >= width then s else Zeros(width - |s|) + s
  }

  lemma {:induction false} ParseZeros(k: nat)
    ensures ParseHex(Zeros(k)) == 0
  {
    if k > 0 {
      assert Zeros(k)[..k - 1] == Zeros(k - 1);
      ParseZeros(k - 1);
    }
  }

  /** Appending digits shifts the prefix's value left by as many hex places. */
  lemma {:induction false} ParseAppend(s: string, t: string)
    requires IsHex(s) && IsHex(t)
    ensures ParseHex(s + t) == ParseHex(s) * Pow16(|t|) + ParseHex(t)
    decreases |t|
  {
    if t == [] {
      assert s + t == s;
    } else {
      var init := t[..|t| - 1];
      var st := s + t;
      assert st[..|st| - 1] == s + init;
      assert st[|st| - 1] == t[|t| - 1];
      ParseAppend(s, init);
      ShiftDigit(ParseHex(s), Pow16(|init|), ParseHex(init), DigitValue(t[|t| - 1]));
    }
  }

  lemma ShiftDigit(a: int, p: int, b: int, d: int)
    ensures (a * p + b) * 16 + d == a * (16 * p) + (b * 16 + d)
  {
  }

  // ---------------------------------------------------------------------------
  // The ObjectId bound

  const PHP_INT_MIN: int := -0x8000_0000_0000_0000
  const PHP_INT_MAX: int := 0x7fff_ffff_ffff_ffff
  const TWO_32: int := 0x1_0000_0000
  const TWO_64: int := 0x1_0000_0000_0000_0000

  /** `dechex` of a PHP integer: a negative one is printed as its 64-bit two's complement. */
  function DecHex(n: int): (r: string)
    requires PHP_INT_MIN <= n <= PHP_INT_MAX
    ensures IsHex(r)
  {
    Hex(if n < 0 then n + TWO_64 else n)
  }

  /** The range bound `new MongoId(str_pad(dechex($ts), 8, "0", STR_PAD_LEFT) . <16 zeros>)`.
      `None` is the exception MongoId raises when the text is not 24 hex digits. */
  function ObjectIdBound(ts: int): Option<string>
    requires PHP_INT_MIN <= ts <= PHP_INT_MAX
  {
    var text := PadLeft(DecHex(ts), 8) + Zeros(16);
    if |text| == 24 then Some(text) else None
  }

  lemma Pow16Of8()
    ensures Pow16(8) == TWO_32
  {
    assert Pow16(4) == 0x1_0000;
  }

  /** The bound exists exactly for the timestamps that fit in 32 bits; it is 24 hex
      digits, the timestamp in its first 8 and zeros after, so as a 96-bit ObjectId it is
      the timestamp shifted past the 16 trailing digits. */
  lemma BoundShape(ts: int)
    requires PHP_INT_MIN <= ts <= PHP_INT_MAX
    ensures ObjectIdBound(ts).Some? <==> 0 <= ts < TWO_32
    ensures ObjectIdBound(ts).Some? ==>
      var b := ObjectIdBound(ts).value;
      && |b| == 24 && IsHex(b)
      && ParseHex(b[..8]) == ts
      && b[8..] == Zeros(16)
      && ParseHex(b) == ts * Pow16(16)
  {
    Pow16Of8();
    if ts < 0 {
      HexLength(ts + TWO_64, 8);
    } else {
      HexLength(ts, 8);
      if ts < TWO_32 {
        BoundOfSmall(ts);
      }
    }
  }

  lemma BoundOfSmall(ts: nat)
    requires |Hex(ts)| <= 8
    ensures
      var b := PadLeft(Hex(ts), 8) + Zeros(16);
      && |b| == 24
      && ParseHex(b[..8]) == ts
      && b[8..] == Zeros(16)
      && ParseHex(b) == ts * Pow16(16)
  {
    var p := PadLeft(Hex(ts), 8);
    HexRoundTrip(ts);
    PaddingKeepsValue(Hex(ts));
    var b := p + Zeros(16);
    assert b[..8] == p;
    assert b[8..] == Zeros(16);
    ParseAppend(p, Zeros(16));
    ParseZeros(16);
  }

  /** Padding with leading zeros does not change the value. */
  lemma PaddingKeepsValue(h: string)
    requires IsHex(h) && |h| <= 8
    ensures ParseHex(PadLeft(h, 8)) == ParseHex(h)
  {
    if |h| < 8 {
      var z := Zeros(8 - |h|);
      assert PadLeft(h, 8) == z + h;
      ParseAppend(z, h);
      ParseZeros(8 - |h|);
      MulZero(ParseHex(z), Pow16(|h|));
    }
  }

  lemma MulZero(a: int, b: int)
    requires a == 0
    ensures a * b == 0
  {
  }

  /** An ObjectId made in second `t` carries `t` in its first 8 hex digits and, after
      them, a machine, process and counter part that is never all zeros. It lies between
      the bounds of `start` and `end`, both inclusive, exactly when start <= t < end: the
      ranges behave as half-open windows. */
  lemma BoundedRangeIsHalfOpen(start: int, end: int, t: nat, tail: nat)
    requires 0 <= start < TWO_32 && 0 <= end < TWO_32 && t < TWO_32
    requires 0 < tail < Pow16(16)
    ensures ObjectIdBound(start).Some? && ObjectIdBound(end).Some?
    ensures var id := t * Pow16(16) + tail;
      (ParseHex(ObjectIdBound(start).value) <= id <= ParseHex(ObjectIdBound(end).value))
      <==> start <= t < end
  {
    BoundShape(start);
    BoundShape(end);
    ScaledOrder(start, t, tail, Pow16(16));
    ScaledOrder(end - 1, t, tail, Pow16(16));
  }

  /** For 0 < tail < p: a * p <= t * p + tail exactly when a <= t, and
      t * p + tail <= (e + 1) * p exactly when t <= e. */
  lemma ScaledOrder(a: int, t: int, tail: int, p: int)
    requires 0 < tail < p
    ensures a * p <= t * p + tail <==> a <= t
    ensures t * p + tail <= (a + 1) * p <==> t <= a
  {
    if a <= t {
      MulMono(a, t, p);
    } else {
      MulMono(t + 1, a, p);
    }
    if t <= a {
      MulMono(t, a, p);
    } else {
      MulMono(a + 1, t, p);
    }
  }

  lemma MulMono(x: int, y: int, p: int)
    requires x <= y && p > 0
    ensures x * p <= y * p
    ensures (x + 1) * p == x * p + p
  {
  }

  // ---------------------------------------------------------------------------
  // The month windows of the who-are-you statistics

  /** A time range `[start, end]` of `getWhoAreYouStatsForTimeRange`. */
  datatype Window = Window(start: int, end: int)

  /** How many months back the by-month breakdown goes. */
  const MONTHS: nat := 4

  /** Windows that chain from `now` backwards: the first ends at `now` and each later one
      ends where the one before it began. */
  predicate Chained(ws: seq<Window>, now: int)
  {
    && |ws| > 0
    && ws[0].end == now
    && forall i :: 0 < i < |ws| ==> ws[i].end == ws[i - 1].start
  }

  /** The windows of `getWhoAreYou`: by month, the i-th starting at `monthStart(i)`, the
      first day of the month i months back (computed by the calendar), and chained from
      `now`; and the window of all time, from 0 to `later` (the clock read again). */
  method WhoAreYouWindows(monthStart: nat -> int, now: int, later: int) returns (byMonth: seq<Window>, all: Window)
    ensures |byMonth| == MONTHS && Chained(byMonth, now)
    ensures forall i :: 0 <= i < MONTHS ==> byMonth[i].start == monthStart(i)
    ensures all == Window(0, later)
  {
    byMonth := [];
    var lastTimestamp := now;
    var i := 0;
    while i < MONTHS
      invariant 0 <= i <= MONTHS && |byMonth| == i
      invariant forall j :: 0 <= j < i ==> byMonth[j].start == monthStart(j)
      invariant i > 0 ==> byMonth[0].end == now
      invariant forall j :: 0 < j < i ==> byMonth[j].end == byMonth[j - 1].start
      invariant lastTimestamp == if i == 0 then now else byMonth[i - 1].start
    {
      var ts := monthStart(i);
      byMonth := byMonth + [Window(ts, lastTimestamp)];
      lastTimestamp := ts;
      i := i + 1;
    }
    all := Window(0, later);
  }

  predicate Covers(w: Window, t: int)
  {
    w.start <= t < w.end
  }

  /** Chained windows that each run forwards cover, as half-open windows, exactly the
      instants from the start of the last one up to `now`, each instant in one window only:
      the by-month counts neither miss nor double-count a document. */
  lemma {:induction false} ChainedWindowsPartition(ws: seq<Window>, now: int, t: int)
    requires Chained(ws, now)
    requires forall i :: 0 <= i < |ws| ==> ws[i].start <= ws[i].end
    ensures (exists i :: 0 <= i < |ws| && Covers(ws[i], t)) <==> ws[|ws| - 1].start <= t < now
    ensures forall i, j :: 0 <= i < |ws| && 0 <= j < |ws| && Covers(ws[i], t) && Covers(ws[j], t) ==> i == j
  {
    if |ws| == 1 {
      return;
    }
    var init := ws[..|ws| - 1];
    assert Chained(init, now);
    ChainedWindowsPartition(init, now, t);
    var last := ws[|ws| - 1];
    assert last.end == init[|init| - 1].start;
    if Covers(last, t) {
      assert ws[|ws| - 1].start <= t < now by {
        WindowsDescend(init, now);
      }
    }
    if ws[|ws| - 1].start <= t < now && !Covers(last, t) {
      var i :| 0 <= i < |init| && Covers(init[i], t);
      assert Covers(ws[i], t);
    }
    forall i, j | 0 <= i < |ws| && 0 <= j < |ws| && Covers(ws[i], t) && Covers(ws[j], t)
      ensures i == j
    {
      if i < |init| && j < |init| {
        assert Covers(init[i], t) && Covers(init[j], t);
      }
    }
  }

  /** In chained forward windows, every window begins no earlier than the last one and
      the last one ends no later than `now`. */
  lemma {:induction false} WindowsDescend(ws: seq<Window>, now: int)
    requires Chained(ws, now)
    requires forall i :: 0 <= i < |ws| ==> ws[i].start <= ws[i].end
    ensures forall i :: 0 <= i < |ws| ==> ws[i].start >= ws[|ws| - 1].start
    ensures ws[|ws| - 1].end <= now
  {
    if |ws| > 1 {
      var init := ws[..|ws| - 1];
      assert Chained(init, now);
      WindowsDescend(init, now);
      assert forall i :: 0 <= i < |init| ==> ws[i] == init[i];
    }
  }

  // ---------------------------------------------------------------------------
  // krsort

  /** Pairs ordered by key, strictly descending. */
  predicate Descending(s: seq<(int, int)>)
  {
    forall i :: 0 < i < |s| ==> s[i - 1].0 > s[i].0
  }

  /** The PHP array a list of key/value pairs denotes. */
  function AsMap(s: seq<(int, int)>): map<int, int>
  {
    if s == [] then map[] else AsMap(s[1..])[s[0].0 := s[0].1]
  }

  /** Inserts a new key at its place in descending order. */
  function InsertDescending(s: seq<(int, int)>, k: int, v: int): (r: seq<(int, int)>)
    requires Descending(s) && k !in AsMap(s)
    ensures Descending(r)
    ensures AsMap(r) == AsMap(s)[k := v]
    ensures |r| == |s| + 1
    ensures r[0] == if s == [] || k > s[0].0 then (k, v) else s[0]
  {
    if s == [] || k > s[0].0 then
      assert ([(k, v)] + s)[1..] == s;
      [(k, v)] + s
    else
      var rest := InsertDescending(s[1..], k, v);
      assert ([s[0]] + rest)[1..] == rest;
      assert AsMap(s[1..])[k := v][s[0].0 := s[0].1] == AsMap(s[1..])[s[0].0 := s[0].1][k := v];
      [s[0]] + rest
  }

  /** `krsort`: the same entries, reordered by key, descending. */
  method KrSort(m: map<int, int>) returns (s: seq<(int, int)>)
    ensures Descending(s)
    ensures AsMap(s) == m
    ensures |s| == |m.Keys|
  {
    s := [];
    var todo := m.Keys;
    while todo != {}
      invariant todo <= m.Keys
      invariant Descending(s)
      invariant AsMap(s) == map k | k in m && k !in todo :: m[k]
      invariant |s| + |todo| == |m.Keys|
      decreases todo
    {
      ghost var some := Elem(todo);
      var k :| k in todo;
      s := InsertDescending(s, k, m[k]);
      todo := todo - {k};
    }
    assert AsMap(s) == m;
  }

  // ---------------------------------------------------------------------------
  // Totals

  /** Sum of the values a map holds under the given keys. */
  ghost function SumOver<K>(keys: set<K>, m: map<K, int>): int
    requires keys <= m.Keys
    decreases keys
  {
    if keys == {} then 0 else var k := Elem(keys); m[k] + SumOver(keys - {k}, m)
  }

  /** Any key can be taken out first. */
  lemma {:induction false} SumOverRemove<K>(keys: set<K>, m: map<K, int>, k: K)
    requires keys <= m.Keys && k in keys
    ensures SumOver(keys, m) == m[k] + SumOver(keys - {k}, m)
    decreases keys
  {
    var x := Elem(keys);
    if x != k {
      SumOverRemove(keys - {x}, m, k);
      SumOverRemove(keys - {k}, m, x);
      assert keys - {x} - {k} == keys - {k} - {x};
    }
  }

  /** Only the values under the summed keys matter. */
  lemma {:induction false} SumOverFrame<K>(keys: set<K>, m: map<K, int>, m': map<K, int>)
    requires keys <= m.Keys && keys <= m'.Keys
    requires forall k :: k in keys ==> m[k] == m'[k]
    ensures SumOver(keys, m) == SumOver(keys, m')
    decreases keys
  {
    if keys != {} {
      var x := Elem(keys);
      SumOverFrame(keys - {x}, m, m');
    }
  }

  /** The sum of a map's values. */
  ghost function Total<K>(m: map<K, int>): int
  {
    SumOver(m.Keys, m)
  }

  /** Setting one entry changes the total by the difference. */
  lemma TotalUpdate<K>(m: map<K, int>, k: K, v: int)
    ensures Total(m[k := v]) == Total(m) - (if k in m then m[k] else 0) + v
  {
    var m' := m[k := v];
    SumOverRemove(m'.Keys, m', k);
    SumOverFrame(m'.Keys - {k}, m', m);
    if k in m {
      SumOverRemove(m.Keys, m, k);
      assert m'.Keys - {k} == m.Keys - {k};
    } else {
      assert m'.Keys - {k} == m.Keys;
    }
  }

  /** The sum of a set of integers. */
  ghost function SumOf(s: set<int>): int
  {
    SumOver(s, map x | x in s :: x)
  }

  lemma SumOfInsert(s: set<int>, x: int)
    requires x !in s
    ensures SumOf(s + {x}) == SumOf(s) + x
  {
    var m := map y | y in s + {x} :: y;
    SumOverRemove(s + {x}, m, x);
    assert (s + {x}) - {x} == s;
    SumOverFrame(s, m, map y | y in s :: y);
  }

  /** A key under which a map holds the given value. */
  lemma KeyOf<K, V>(m: map<K, V>, v: V) returns (k: K)
    requires v in m.Values
    ensures k in m && m[k] == v
  {
    k :| k in m && m[k] == v;
  }

  /** A new key adds its value to the map's values. */
  lemma ValuesAfterInsert<K, V>(m: map<K, V>, k: K, v: V)
    requires k !in m
    ensures m[k := v].Values == m.Values + {v}
  {
    var m' := m[k := v];
    forall x | x in m'.Values
      ensures x in m.Values + {v}
    {
      var w := KeyOf(m', x);
      if w != k {
        assert m[w] == x;
      }
    }
    forall x | x in m.Values + {v}
      ensures x in m'.Values
    {
      if x != v {
        var w := KeyOf(m, x);
        assert m'[w] == x;
      } else {
        assert m'[k] == v;
      }
    }
  }

  /** A map cut down to the given keys. */
  function Restrict<K, V>(m: map<K, V>, keys: set<K>): (r: map<K, V>)
    ensures r.Keys == m.Keys * keys
    ensures forall k :: k in r ==> r[k] == m[k]
  {
    map k | k in m && k in keys :: m[k]
  }

  /** Cutting down to one more key of the map adds that entry. */
  lemma RestrictInsert<K, V>(m: map<K, V>, keys: set<K>, k: K)
    requires k in m && k !in keys
    ensures k !in Restrict(m, keys)
    ensures Restrict(m, keys + {k}) == Restrict(m, keys)[k := m[k]]
  {
  }
}
