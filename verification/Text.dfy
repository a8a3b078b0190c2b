/** Text primitives of the Go standard library that the naming scheme relies on:
    splitting and joining on one separator, trimming, decimal printing. A string is
    a sequence of runes; every function here is total. */
module Text {

  // ----- searching -----

  /** Index of the first `c` from `i` on, or `|s|` when there is none. */
  function IndexFrom(s: string, c: char, i: nat): (r: nat)
    requires i <= |s|
    ensures i <= r <= |s|
    ensures forall k | i <= k < r :: s[k] != c
    ensures r < |s| ==> s[r] == c
    decreases |s| - i
  {
    if i == |s| || s[i] == c then i else IndexFrom(s, c, i + 1)
  }

  lemma IndexOfPrefix(a: string, x: string, c: char)
    requires c !in a
    ensures IndexFrom(a + [c] + x, c, 0) == |a|
  {
    var s := a + [c] + x;
    assert s[|a|] == c;
    assert forall k | 0 <= k < |a| :: s[k] == a[k];
  }

  /** A separator that does not occur in either left part pins both parts down. */
  lemma FirstSeparator(a: string, x: string, a': string, x': string, c: char)
    requires c !in a && c !in a'
    requires a + [c] + x == a' + [c] + x'
    ensures a == a' && x == x'
  {
    IndexOfPrefix(a, x, c);
    IndexOfPrefix(a', x', c);
    var s := a + [c] + x;
    assert a == s[..|a|] && a' == s[..|a'|];
    assert x == s[|a| + 1..] && x' == s[|a'| + 1..];
  }

  /** The mirror image: a separator absent from either right part. */
  lemma LastSeparator(x: string, a: string, x': string, a': string, c: char)
    requires c !in a && c !in a'
    requires x + [c] + a == x' + [c] + a'
    ensures x == x' && a == a'
  {
    var s := x + [c] + a;
    assert s[|x|] == c && s[|x'|] == c;
    assert forall k :: |x| < k < |s| ==> s[k] == a[k - |x| - 1];
    assert forall k :: |x'| < k < |s| ==> s[k] == a'[k - |x'| - 1];
    assert |x| == |x'|;
    assert x == s[..|x|] && x' == s[..|x'|];
    assert a == s[|x| + 1..] && a' == s[|x'| + 1..];
  }

  // ----- splitting and joining -----

  /** strings.Join with a one-character separator. */
  function Join(parts: seq<string>, c: char): string
  {
    if |parts| == 0 then ""
    else if |parts| == 1 then parts[0]
    else parts[0] + [c] + Join(parts[1..], c)
  }

  /** strings.Split with a one-character separator: never empty, and joining undoes it. */
  function Split(s: string, c: char): (parts: seq<string>)
    ensures parts != []
    ensures forall i | 0 <= i < |parts| :: c !in parts[i]
    ensures Join(parts, c) == s
    decreases |s|
  {
    var i := IndexFrom(s, c, 0);
    if i == |s| then [s] else
    var rest := Split(s[i + 1..], c);
    assert ([s[..i]] + rest)[1..] == rest;
    [s[..i]] + rest
  }

  /** Split undoes Join for any non-empty list of separator-free parts. */
  lemma {:induction false} SplitOfJoin(parts: seq<string>, c: char)
    requires parts != []
    requires forall i | 0 <= i < |parts| :: c !in parts[i]
    ensures Split(Join(parts, c), c) == parts
    decreases |parts|
  {
    if |parts| == 1 {
    } else {
      var rest := Join(parts[1..], c);
      IndexOfPrefix(parts[0], rest, c);
      var s := parts[0] + [c] + rest;
      assert s[..|parts[0]|] == parts[0] && s[|parts[0]| + 1..] == rest;
      SplitOfJoin(parts[1..], c);
    }
  }

  lemma {:induction false} JoinAppend(parts: seq<string>, last: string, c: char)
    ensures Join(parts + [last], c) == if parts == [] then last else Join(parts, c) + [c] + last
    decreases |parts|
  {
    if |parts| == 0 {
    } else if |parts| == 1 {
      assert (parts + [last])[1..] == [last];
    } else {
      JoinAppend(parts[1..], last, c);
      assert (parts + [last])[1..] == parts[1..] + [last];
    }
  }

  lemma {:induction false} JoinConcat(a: seq<string>, b: seq<string>, c: char)
    requires a != [] && b != []
    ensures Join(a + b, c) == Join(a, c) + [c] + Join(b, c)
    decreases |a|
  {
    if |a| == 1 {
      assert (a + b)[1..] == b;
    } else {
      JoinConcat(a[1..], b, c);
      assert (a + b)[1..] == a[1..] + b;
    }
  }

  lemma SplitConcat(a: string, b: string, c: char)
    ensures Split(a + [c] + b, c) == Split(a, c) + Split(b, c)
  {
    JoinConcat(Split(a, c), Split(b, c), c);
    SplitOfJoin(Split(a, c) + Split(b, c), c);
  }

  lemma {:induction false} JoinChars(parts: seq<string>, c: char, x: char)
    ensures x in Join(parts, c) ==> x == c || exists i :: 0 <= i < |parts| && x in parts[i]
    decreases |parts|
  {
    if |parts| > 1 && x in Join(parts, c) {
      JoinChars(parts[1..], c, x);
      if x != c && x !in parts[0] {
        var i :| 0 <= i < |parts[1..]| && x in parts[1..][i];
        assert x in parts[i + 1];
      }
    }
  }

  // ----- trimming -----

  /** The first index from `i` on whose rune is kept, or `|s|`. */
  function KeepFrom(s: string, p: char -> bool, i: nat): (lo: nat)
    requires i <= |s|
    ensures i <= lo <= |s|
    ensures lo < |s| ==> !p(s[lo])
    ensures forall k | i <= k < lo :: p(s[k])
    decreases |s| - i
  {
    if i == |s| || !p(s[i]) then i else KeepFrom(s, p, i + 1)
  }

  /** One past the last index before `n`, and not before `lo`, whose rune is kept. */
  function KeepTo(s: string, p: char -> bool, lo: nat, n: nat): (hi: nat)
    requires lo <= n <= |s|
    ensures lo <= hi <= n
    ensures hi > lo ==> !p(s[hi - 1])
    ensures forall k | hi <= k < n :: p(s[k])
  {
    if n == lo || !p(s[n - 1]) then n else KeepTo(s, p, lo, n - 1)
  }

  /** strings.TrimFunc: the runes between the first and the last one kept. */
  function Trim(s: string, p: char -> bool): (r: string)
    ensures r != "" ==> !p(r[0]) && !p(r[|r| - 1])
    ensures |r| <= |s|
  {
    var lo := KeepFrom(s, p, 0);
    s[lo..KeepTo(s, p, lo, |s|)]
  }

  /** What trimming cuts off. */
  lemma TrimBounds(s: string, p: char -> bool) returns (lo: nat, hi: nat)
    ensures lo <= hi <= |s| && Trim(s, p) == s[lo..hi]
    ensures forall k | 0 <= k < lo :: p(s[k])
    ensures forall k | hi <= k < |s| :: p(s[k])
    ensures lo < hi ==> !p(s[lo]) && !p(s[hi - 1])
  {
    lo := KeepFrom(s, p, 0);
    hi := KeepTo(s, p, lo, |s|);
  }

  lemma TrimPadding(before: string, v: string, after: string, p: char -> bool)
    requires forall c | c in before || c in after :: p(c)
    requires v != "" ==> !p(v[0]) && !p(v[|v| - 1])
    ensures Trim(before + v + after, p) == v
  {
    hide Trim;
    var s := before + v + after;
    var lo, hi := TrimBounds(s, p);
    forall k | 0 <= k < |before| ensures p(s[k]) {
      assert s[k] in before;
    }
    forall k | |before| + |v| <= k < |s| ensures p(s[k]) {
      assert s[k] == after[k - |before| - |v|] && s[k] in after;
    }
    if v != "" {
      assert s[|before|] == v[0] && s[|before| + |v| - 1] == v[|v| - 1];
      assert lo == |before| && hi == |before| + |v|;
    }
    assert s[|before|..|before| + |v|] == v;
  }

  lemma TrimKeeps(s: string, p: char -> bool, ok: char -> bool)
    requires forall i | 0 <= i < |s| :: ok(s[i])
    ensures forall i | 0 <= i < |Trim(s, p)| :: ok(Trim(s, p)[i])
  {
  }

  lemma TrimIdentity(s: string, p: char -> bool)
    ensures Trim(s, p) == s <==> s == "" || (!p(s[0]) && !p(s[|s| - 1]))
    ensures |Trim(s, p)| == |s| ==> Trim(s, p) == s
  {
  }

  // ----- decimal printing -----

  function Digit(d: nat): char
    requires d < 10
  {
    '0' + d as char
  }

  predicate AllDigits(s: string) {
    forall i | 0 <= i < |s| :: '0' <= s[i] <= '9'
  }

  /** strconv.Itoa on a natural number. */
  function Decimal(n: nat): (s: string)
    ensures s != ""
    ensures AllDigits(s)
  {
    if n < 10 then [Digit(n)] else Decimal(n / 10) + [Digit(n % 10)]
  }

  /** The number a string of digits denotes. */
  function Value(s: string): nat
    requires AllDigits(s)
  {
    if s == "" then 0 else 10 * Value(s[..|s| - 1]) + (s[|s| - 1] - '0') as nat
  }

  /** A text of digits that reads as the number. */
  predicate Denotes(s: string, n: nat) { AllDigits(s) && Value(s) == n }

  lemma {:induction false} ValueOfDecimal(n: nat)
    ensures Value(Decimal(n)) == n
  {
    if n >= 10 {
      ValueOfDecimal(n / 10);
      assert Decimal(n)[..|Decimal(n)| - 1] == Decimal(n / 10);
    } else {
      assert Decimal(n)[..0] == "";
    }
  }

  /** The usual decimal notation: no leading zero. */
  predicate Prints(s: string, n: nat) {
    s != "" && Denotes(s, n) && (s[0] == '0' ==> s == "0")
  }

  lemma {:induction false} DecimalPrints(n: nat)
    ensures Prints(Decimal(n), n)
  {
    ValueOfDecimal(n);
    assert Value("0") == 0 by {
      assert "0"[..0] == "";
    }
    if n >= 10 {
      DecimalPrints(n / 10);
      hide Value;
      assert Decimal(n)[0] == Decimal(n / 10)[0];
    }
  }

  function Zeros(n: nat): (s: string)
    ensures |s| == n
    ensures forall i | 0 <= i < n :: s[i] == '0'
  {
    seq(n, _ => '0')
  }

  /** fmt's zero padding: at least `w` characters, more when the number needs them. */
  function Pad(n: nat, w: nat): (s: string)
    ensures |s| >= w
    ensures AllDigits(s)
  {
    var d := Decimal(n);
    if |d| >= w then d else Zeros(w - |d|) + d
  }

  lemma {:induction false} ValueLeadingZeros(z: nat, s: string)
    requires AllDigits(s)
    ensures Value(Zeros(z) + s) == Value(s)
    decreases z + |s|
  {
    if s != "" {
      ValueLeadingZeros(z, s[..|s| - 1]);
      assert (Zeros(z) + s)[..z + |s| - 1] == Zeros(z) + s[..|s| - 1];
    } else if z > 0 {
      ValueLeadingZeros(z - 1, "");
      assert (Zeros(z) + s)[..z - 1] == Zeros(z - 1) + "";
    } else {
      assert Zeros(0) + s == "";
    }
  }

  lemma ValueOfPad(n: nat, w: nat)
    ensures Value(Pad(n, w)) == n
  {
    ValueOfDecimal(n);
    if |Decimal(n)| < w {
      ValueLeadingZeros(w - |Decimal(n)|, Decimal(n));
    }
  }

  /** Both printing forms are injective, whatever the width. */
  lemma PadInjective(m: nat, n: nat, w: nat)
    ensures Pad(m, w) == Pad(n, w) ==> m == n
    ensures Decimal(m) == Decimal(n) ==> m == n
  {
    ValueOfPad(m, w);
    ValueOfPad(n, w);
    ValueOfDecimal(m);
    ValueOfDecimal(n);
  }

  lemma PadWidth2(n: nat)
    requires n < 100
    ensures |Pad(n, 2)| == 2
  {
    assert |Decimal(n)| <= 2;
  }

  lemma PadWidth4(n: nat)
    requires n < 10000
    ensures |Pad(n, 4)| == 4
  {
    assert |Decimal(n / 1000)| == 1;
    assert |Decimal(n / 100)| <= 2;
    assert |Decimal(n / 10)| <= 3;
    assert |Decimal(n)| <= 4;
  }
}
