/**
  hash_b79 of hash.c: the first ten characters of a word, mapped to 79 classes and read as a
  number in base 79. The number fits 64 bits, gives the classes back, and orders words by them.
*/
module HashB79 {
  import opened Machine

  /** A character of a C string: never the terminator. */
  type ucchar = c: nat | 0 < c < 256 witness 1

  // ---------- The range table ----------

  datatype Range = Range(lim: nat, val: nat, flag: nat)

  const RANGES: seq<Range> := [
    Range(1, 0, 0), Range(0x20, 1, 0), Range(0x22, 2, 1), Range(0x28, 4, 0), Range(0x2a, 5, 1),
    Range(0x2d, 7, 0), Range(0x3a, 8, 1), Range(0x41, 21, 0), Range(0x5b, 22, 1), Range(0x5e, 48, 0),
    Range(0x61, 49, 0), Range(0x7b, 50, 1), Range(0x7d, 76, 0), Range(0x7f, 77, 0), Range(256, 78, 0),
    Range(0, 0, 0)]

  /** The class of a character: one each for the letters, digits and a few signs, shared by the rest. */
  function Class(c: nat): (k: nat)
    requires c < 256
    ensures k < 79
  {
    if c == 0 then 0
    else if c < 0x20 then 1
    else if c < 0x22 then 2 + (c - 0x20)
    else if c < 0x28 then 4
    else if c < 0x2a then 5 + (c - 0x28)
    else if c < 0x2d then 7
    else if c < 0x3a then 8 + (c - 0x2d)
    else if c < 0x41 then 21
    else if c < 0x5b then 22 + (c - 0x41)
    else if c < 0x5e then 48
    else if c < 0x61 then 49
    else if c < 0x7b then 50 + (c - 0x61)
    else if c < 0x7d then 76
    else if c < 0x7f then 77
    else 78
  }

  method Ascii2Mx79(c: int) returns (cc: int)
    ensures 0 <= c < 256 ==> cc == Class(c)
    ensures c < 0 || c >= 256 ==> cc == -1
  {
    var limSup := 0;
    var i := 0;
    while RANGES[i].lim != 0
      invariant 0 <= i <= 15
      invariant limSup == if i == 0 then 0 else RANGES[i - 1].lim
      invariant c < 0 || c >= limSup
      decreases 15 - i
    {
      var limInf := limSup;
      limSup := RANGES[i].lim;
      if c >= limInf && c < limSup {
        if RANGES[i].flag == 0 {
          cc := RANGES[i].val;
        } else {
          cc := c - limInf + RANGES[i].val;
        }
        return;
      }
      i := i + 1;
    }
    return -1;
  }

  /** Characters that go together, by their names. */
  predicate Together(c: char, d: char) {
    var both := (lo: char, hi: char) => lo <= c <= hi && lo <= d <= hi;
    both(1 as char, 31 as char) || both('"', '\'') || both('*', ',') || both(':', '@') || both('[', ']') ||
    both('^', '`') || both('{', '|') || both('}', '~') || both(127 as char, 255 as char)
  }

  /** Two different characters share a class exactly if they go together. */
  lemma SharedIffTogether(c: char, d: char)
    requires c != d && c as nat < 256 && d as nat < 256
    ensures Class(c as nat) == Class(d as nat) <==> Together(c, d)
  {
  }

  /** Every class below 79 is that of some character. */
  lemma EveryClass(k: nat) returns (c: nat)
    requires k < 79
    ensures c < 256 && Class(c) == k
  {
    c := if k == 0 then 0 else if k == 1 then 1 else if k < 4 then 0x20 + (k - 2) else if k == 4 then 0x22
         else if k < 7 then 0x28 + (k - 5) else if k == 7 then 0x2a else if k < 21 then 0x2d + (k - 8)
         else if k == 21 then 0x3a else if k < 48 then 0x41 + (k - 22) else if k == 48 then 0x5b
         else if k == 49 then 0x5e else if k < 76 then 0x61 + (k - 50) else if k == 76 then 0x7b
         else if k == 77 then 0x7d else 0x7f;
  }

  // ---------- Base 79 ----------

  /** The number whose base-79 digits these are, most significant first. */
  function Value(digits: seq<nat>): nat {
    if digits == [] then 0 else Value(digits[..|digits| - 1]) * 79 + digits[|digits| - 1]
  }

  ghost predicate Digits(d: seq<nat>) {
    forall i :: 0 <= i < |d| ==> d[i] < 79
  }

  function Power79(n: nat): nat {
    if n == 0 then 1 else 79 * Power79(n - 1)
  }

  lemma {:induction false} ValueBound(d: seq<nat>)
    requires Digits(d)
    ensures Value(d) < Power79(|d|)
  {
    if d != [] {
      ValueBound(d[..|d| - 1]);
    }
  }

  /** The first k elements of a and b are the same. */
  ghost predicate SameUpTo(a: seq<nat>, b: seq<nat>, k: nat)
    requires k <= |a| && k <= |b|
  {
    forall i :: 0 <= i < k ==> a[i] == b[i]
  }

  /** a comes before b: it is smaller at the first place where they differ. */
  ghost predicate Before(a: seq<nat>, b: seq<nat>) {
    exists k :: 0 <= k < |a| && k < |b| && SameUpTo(a, b, k) && a[k] < b[k]
  }

  lemma BeforeByLast(a: seq<nat>, b: seq<nat>)
    requires |a| == |b| > 0
    ensures var n := |a| - 1;
            Before(a, b) <==> Before(a[..n], b[..n]) || (a[..n] == b[..n] && a[n] < b[n])
  {
    var n := |a| - 1;
    var x, y := a[..n], b[..n];
    if Before(a, b) {
      var k :| 0 <= k < |a| && SameUpTo(a, b, k) && a[k] < b[k];
      if k < n {
        assert SameUpTo(x, y, k) && x[k] < y[k];
      }
    }
    if Before(x, y) {
      var k :| 0 <= k < n && SameUpTo(x, y, k) && x[k] < y[k];
      assert SameUpTo(a, b, k) && a[k] < b[k];
    }
    if x == y && a[n] < b[n] {
      assert SameUpTo(a, b, n) by {
        forall i | 0 <= i < n ensures a[i] == b[i] { assert x[i] == y[i]; }
      }
    }
  }

  lemma {:induction false} BeforeIrreflexive(a: seq<nat>)
    ensures !Before(a, a)
  {
  }

  /** Numbers of equal length compare like their digits. */
  lemma {:induction false} ValueOrder(a: seq<nat>, b: seq<nat>)
    requires |a| == |b| && Digits(a) && Digits(b)
    ensures Value(a) < Value(b) <==> Before(a, b)
    ensures Value(a) == Value(b) <==> a == b
  {
    if a != [] {
      hide *;
      var n := |a| - 1;
      var x, y := a[..n], b[..n];
      DigitsParts(a);
      DigitsParts(b);
      ValueOrder(x, y);
      BeforeByLast(a, b);
      BeforeIrreflexive(x);
      EqualByLast(a, b);
      Positional(Value(x), a[n], Value(y), b[n]);
    }
  }

  lemma EqualByLast(a: seq<nat>, b: seq<nat>)
    requires |a| == |b| > 0
    ensures var n := |a| - 1; a == b <==> a[..n] == b[..n] && a[n] == b[n]
  {
    var n := |a| - 1;
    assert a == a[..n] + [a[n]] && b == b[..n] + [b[n]];
  }

  lemma DigitsParts(d: seq<nat>)
    requires d != [] && Digits(d)
    ensures Digits(d[..|d| - 1]) && d[|d| - 1] < 79
    ensures Value(d) == Value(d[..|d| - 1]) * 79 + d[|d| - 1]
  {
  }

  lemma Positional(x: nat, c: nat, y: nat, d: nat)
    requires c < 79 && d < 79
    ensures x * 79 + c < y * 79 + d <==> x < y || (x == y && c < d)
    ensures x * 79 + c == y * 79 + d <==> x == y && c == d
  {
  }

  // ---------- The hash ----------

  /** The classes of the first ten characters, padded with class 0. */
  function Classes(s: seq<ucchar>): (d: seq<nat>)
    ensures |d| == 10 && forall i :: 0 <= i < 10 ==> d[i] == if i < |s| then Class(s[i]) else 0
  {
    seq(10, i requires 0 <= i < 10 => if i < |s| then Class(s[i]) else 0)
  }

  /** hash_b79, in 64-bit arithmetic; a null pointer hashes to 0. */
  method HashB79(p: Option<seq<ucchar>>) returns (h: nat)
    ensures p.None? ==> h == 0
    ensures p.Some? ==> h == Value(Classes(p.value)) < Power79(10) < TWO_64
  {
    if p.None? {
      return 0;
    }
    var l := |p.value|;
    h := 0;
    var i := 0;
    Powers();
    hide Power79, Value;
    ValueOfNone(Classes(p.value));
    while i < 10
      invariant i <= 10
      invariant h == Value(Classes(p.value)[..i])
    {
      var cc;
      if i < l {
        var c := p.value[i];
        cc := Ascii2Mx79(c);
      } else {
        cc := 0;
      }
      StepFits(Classes(p.value), i);
      h := (h * 79) % TWO_64;
      h := (h + cc) % TWO_64;
      i := i + 1;
    }
    assert Classes(p.value)[..10] == Classes(p.value);
    ValueBound(Classes(p.value));
  }

  lemma ValueOfNone(d: seq<nat>)
    ensures Value(d[..0]) == 0
  {
  }

  lemma Powers()
    ensures Power79(10) < TWO_64
  {
    assert Power79(5) == 3077056399;
    assert Power79(10) == 79 * (79 * (79 * (79 * (79 * Power79(5)))));
  }

  lemma {:induction false} PowerMonotone(m: nat, n: nat)
    requires m <= n
    ensures Power79(m) <= Power79(n)
  {
    if m < n {
      PowerMonotone(m, n - 1);
    }
  }

  /** No step of the loop overflows 64 bits. */
  lemma StepFits(d: seq<nat>, i: nat)
    requires |d| == 10 && Digits(d) && i < 10
    ensures Value(d[..i + 1]) == ((Value(d[..i]) * 79) % TWO_64 + d[i]) % TWO_64
  {
    var h := Value(d[..i]);
    assert d[..i + 1][..i] == d[..i];
    DigitsParts(d[..i + 1]);
    ValueBound(d[..i + 1]);
    PowerMonotone(i + 1, 10);
    Powers();
    hide Value, Power79;
    InWord(h * 79);
    InWord(h * 79 + d[i]);
  }

  lemma InWord(x: nat)
    ensures x < TWO_64 ==> x % TWO_64 == x
  {
  }

  function B79(s: seq<ucchar>): nat {
    Value(Classes(s))
  }

  // ---------- What the hash means ----------

  /** Words hash in the order of their first ten classes. */
  lemma OrderOfClasses(s: seq<ucchar>, t: seq<ucchar>)
    ensures B79(s) < B79(t) <==> Before(Classes(s), Classes(t))
    ensures B79(s) == B79(t) <==> Classes(s) == Classes(t)
  {
    ValueOrder(Classes(s), Classes(t));
  }

  /** Dividing by 79 again and again gives the classes back, last one first. */
  function Decode(h: nat, n: nat): seq<nat>
    decreases n
  {
    if n == 0 then [] else Decode(h / 79, n - 1) + [h % 79]
  }

  lemma {:induction false} DecodeValue(d: seq<nat>)
    requires Digits(d)
    ensures Decode(Value(d), |d|) == d
  {
    if d != [] {
      var init, last := d[..|d| - 1], d[|d| - 1];
      DecodeValue(init);
      assert Value(d) / 79 == Value(init) && Value(d) % 79 == last;
      assert d == init + [last];
    }
  }

  lemma ClassesRecovered(s: seq<ucchar>)
    ensures Decode(B79(s), 10) == Classes(s)
  {
    DecodeValue(Classes(s));
  }

  lemma ValueStep(d: seq<nat>, k: nat)
    ensures Value(d + [k]) == 79 * Value(d) + k
  {
    assert (d + [k])[..|d|] == d;
  }

  /** The number of ten classes, one after the other. */
  lemma ValueOfTen(d: seq<nat>)
    requires |d| == 10
    ensures Value(d)
         == 79 * (79 * (79 * (79 * (79 * (79 * (79 * (79 * (79 * d[0] + d[1]) + d[2]) + d[3]) + d[4]) + d[5]) + d[6])
                  + d[7]) + d[8]) + d[9]
  {
    assert d == [] + [d[0]] + [d[1]] + [d[2]] + [d[3]] + [d[4]] + [d[5]] + [d[6]] + [d[7]] + [d[8]] + [d[9]];
    assert Value([]) == 0;
    hide Value;
    ValueStep([], d[0]);
    ValueStep([] + [d[0]], d[1]);
    ValueStep([] + [d[0]] + [d[1]], d[2]);
    ValueStep([] + [d[0]] + [d[1]] + [d[2]], d[3]);
    ValueStep([] + [d[0]] + [d[1]] + [d[2]] + [d[3]], d[4]);
    ValueStep([] + [d[0]] + [d[1]] + [d[2]] + [d[3]] + [d[4]], d[5]);
    ValueStep([] + [d[0]] + [d[1]] + [d[2]] + [d[3]] + [d[4]] + [d[5]], d[6]);
    ValueStep([] + [d[0]] + [d[1]] + [d[2]] + [d[3]] + [d[4]] + [d[5]] + [d[6]], d[7]);
    ValueStep([] + [d[0]] + [d[1]] + [d[2]] + [d[3]] + [d[4]] + [d[5]] + [d[6]] + [d[7]], d[8]);
    ValueStep([] + [d[0]] + [d[1]] + [d[2]] + [d[3]] + [d[4]] + [d[5]] + [d[6]] + [d[7]] + [d[8]], d[9]);
  }

  /** "a" and "ABCDEFGHIJ". */
  lemma OfLetters()
    ensures B79([0x61]) == 5992579799130915950
    ensures B79([0x41, 0x42, 0x43, 0x44, 0x45, 0x46, 0x47, 0x48, 0x49, 0x4a]) == 2672095666316616805
  {
    hide Value;
    ValueOfTen(Classes([0x61]));
    ValueOfTen(Classes([0x41, 0x42, 0x43, 0x44, 0x45, 0x46, 0x47, 0x48, 0x49, 0x4a]));
  }

  /** Characters that have a class of their own. */
  predicate Distinct(c: ucchar) {
    c == 0x20 || c == 0x21 || c == 0x28 || c == 0x29 || 0x2d <= c <= 0x39 || 0x41 <= c <= 0x5a || 0x61 <= c <= 0x7a
  }

  /** Space, the two signs, parentheses, '-', '.', '/', digits and letters, at most ten of them. */
  ghost predicate Word10(s: seq<ucchar>) {
    |s| <= 10 && forall i :: 0 <= i < |s| ==> Distinct(s[i])
  }

  /** strcmp(s, t) < 0: the first difference decides, and the end of a string counts as 0. */
  ghost predicate StrLess(s: seq<ucchar>, t: seq<ucchar>) {
    exists k :: 0 <= k <= |s| && k < |t| && SameUpTo(s, t, k) && (k == |s| || s[k] < t[k])
  }

  /** Every class keeps the order of the characters, and a class of one character tells it apart. */
  lemma ClassMonotone(c: ucchar, d: ucchar)
    ensures c <= d ==> Class(c) <= Class(d)
    ensures c < d && (Distinct(c) || Distinct(d)) ==> Class(c) < Class(d)
    ensures Class(c) > 0
  {
  }

  /** Different strings have a first difference, or one goes on where the other ends. */
  lemma {:induction false} CommonPrefix(s: seq<ucchar>, t: seq<ucchar>, from: nat) returns (k: nat)
    requires s != t && from <= |s| && from <= |t| && SameUpTo(s, t, from)
    ensures k <= |s| && k <= |t| && SameUpTo(s, t, k)
    ensures (k == |s| < |t|) || (k == |t| < |s|) || (k < |s| && k < |t| && s[k] != t[k])
    decreases |s| - from
  {
    if from == |s| || from == |t| || s[from] != t[from] {
      k := from;
    } else {
      k := CommonPrefix(s, t, from + 1);
    }
  }

  /** s and t agree up to k, and there one of them ends or their characters differ. */
  ghost predicate FirstDiffersAt(s: seq<ucchar>, t: seq<ucchar>, k: nat) {
    k <= |s| && k <= |t| && SameUpTo(s, t, k) &&
    ((k == |s| < |t|) || (k == |t| < |s|) || (k < |s| && k < |t| && s[k] != t[k]))
  }

  /** The hash sees the first difference: it is within ten characters and not inside one class. */
  ghost predicate Seen(s: seq<ucchar>, t: seq<ucchar>, k: nat) {
    k < 10 && (k < |s| && k < |t| ==> Class(s[k]) != Class(t[k]))
  }

  /** Whatever the words, when the hash sees their first difference it orders them like strcmp. */
  lemma SeenDecides(s: seq<ucchar>, t: seq<ucchar>, k: nat)
    requires FirstDiffersAt(s, t, k) && Seen(s, t, k)
    ensures B79(s) < B79(t) <==> StrLess(s, t)
    ensures B79(s) != B79(t)
  {
    var a, b := Classes(s), Classes(t);
    if k < |s| { ClassMonotone(s[k], s[k]); }
    if k < |t| { ClassMonotone(t[k], t[k]); }
    if k < |s| && k < |t| {
      ClassMonotone(s[k], t[k]);
      ClassMonotone(t[k], s[k]);
    }
    assert a[k] != b[k];
    FirstIs(a, b, k);
    StrFirstIs(s, t, k);
    OrderOfClasses(s, t);
  }

  /** On the one-character classes the hash is injective and orders words like strcmp. */
  lemma OrdersLikeStrcmp(s: seq<ucchar>, t: seq<ucchar>)
    requires Word10(s) && Word10(t)
    ensures B79(s) == B79(t) <==> s == t
    ensures B79(s) < B79(t) <==> StrLess(s, t)
  {
    if s != t {
      var k := CommonPrefix(s, t, 0);
      if k < |s| && k < |t| {
        ClassMonotone(s[k], t[k]);
        ClassMonotone(t[k], s[k]);
      }
      SeenDecides(s, t, k);
    } else {
      OrderOfClasses(s, t);
    }
  }

  /** cat, dog and duck. */
  lemma CatDogDuck()
    ensures B79([0x63, 0x61, 0x74]) < B79([0x64, 0x6f, 0x67]) < B79([0x64, 0x75, 0x63, 0x6b])
  {
    var cat: seq<ucchar>, dog: seq<ucchar>, duck: seq<ucchar> := [0x63, 0x61, 0x74], [0x64, 0x6f, 0x67],
                                                                 [0x64, 0x75, 0x63, 0x6b];
    OrdersLikeStrcmp(cat, dog);
    OrdersLikeStrcmp(dog, duck);
    assert SameUpTo(cat, dog, 0) && SameUpTo(dog, duck, 1);
    hide B79;
    assert cat[0] < dog[0] && dog[1] < duck[1];
  }

  /** Only the first difference can decide. */
  lemma FirstIs(a: seq<nat>, b: seq<nat>, k: nat)
    requires k < |a| && k < |b| && SameUpTo(a, b, k) && a[k] != b[k]
    ensures Before(a, b) <==> a[k] < b[k]
  {
  }

  lemma StrFirstIs(s: seq<ucchar>, t: seq<ucchar>, k: nat)
    requires k <= |s| && k <= |t| && SameUpTo(s, t, k)
    requires (k == |s| < |t|) || (k == |t| < |s|) || (k < |s| && k < |t| && s[k] != t[k])
    ensures StrLess(s, t) <==> k < |t| && (k == |s| || s[k] < t[k])
  {
  }

  /** Where the words differ first, s has the smaller character, or ends. */
  predicate Smaller(s: seq<ucchar>, t: seq<ucchar>, k: nat)
    requires k <= |s|
  {
    k < |t| && (k == |s| || s[k] < t[k])
  }

  /** The classes of the words differ at j for the first time. */
  ghost predicate ClassesDifferAt(s: seq<ucchar>, t: seq<ucchar>, j: nat) {
    j < 10 && SameUpTo(Classes(s), Classes(t), j) && Classes(s)[j] != Classes(t)[j]
  }

  /** Different classes have a first difference. */
  lemma {:induction false} FirstClass(s: seq<ucchar>, t: seq<ucchar>, from: nat) returns (j: nat)
    requires from <= 10 && Classes(s) != Classes(t) && SameUpTo(Classes(s), Classes(t), from)
    ensures from <= j && ClassesDifferAt(s, t, j)
    decreases 10 - from
  {
    assert from == 10 ==> Classes(s) == Classes(t);
    if Classes(s)[from] != Classes(t)[from] {
      j := from;
    } else {
      j := FirstClass(s, t, from + 1);
    }
  }

  /**
    The hash orders two different words like strcmp exactly if the first difference of their classes is
    among the first ten and has the sign of the first difference of their characters.
  */
  lemma OrderedIffSeen(s: seq<ucchar>, t: seq<ucchar>, k: nat)
    requires FirstDiffersAt(s, t, k)
    ensures B79(s) != B79(t) && (B79(s) < B79(t) <==> StrLess(s, t)) <==>
            exists j :: k <= j < 10 && ClassesDifferAt(s, t, j) && (Classes(s)[j] < Classes(t)[j] <==> Smaller(s, t, k))
  {
    OrderOfClasses(s, t);
    StrFirstIs(s, t, k);
    hide B79, StrLess;
    var a, b := Classes(s), Classes(t);
    if a != b {
      var start := if k < 10 then k else 10;
      assert SameUpTo(a, b, start);
      var j := FirstClass(s, t, start);
      FirstIs(a, b, j);
      forall i | ClassesDifferAt(s, t, i)
        ensures i == j
      {
      }
    }
  }

  /** Any two characters of one class, behind any eight characters or fewer, begin words in the wrong order. */
  lemma SharedClassMisorders(p: seq<ucchar>, c: ucchar, d: ucchar)
    requires |p| < 9 && c < d && Class(c) == Class(d)
    ensures StrLess(p + [c, 0x7a], p + [d, 0x61])
    ensures B79(p + [c, 0x7a]) > B79(p + [d, 0x61])
  {
    var s: seq<ucchar>, t: seq<ucchar> := p + [c, 0x7a], p + [d, 0x61];
    StrFirstIs(s, t, |p|);
    OrderOfClasses(t, s);
    hide B79, StrLess, Before;
    assert SameUpTo(Classes(t), Classes(s), |p| + 1);
    FirstIs(Classes(t), Classes(s), |p| + 1);
  }

  /**
    So two characters behind a prefix are ordered rightly in front of anything exactly if the prefix is
    shorter than ten characters and the hash tells the two apart.
  */
  lemma OrderedIffTold(p: seq<ucchar>, c: ucchar, d: ucchar)
    requires c < d
    ensures |p| < 10 && Class(c) != Class(d) <==>
            forall u: seq<ucchar>, v: seq<ucchar> :: B79(p + [c] + u) < B79(p + [d] + v)
  {
    if |p| < 10 && Class(c) != Class(d) {
      forall u: seq<ucchar>, v: seq<ucchar>
        ensures B79(p + [c] + u) < B79(p + [d] + v)
      {
        SeenDecides(p + [c] + u, p + [d] + v, |p|);
        StrFirstIs(p + [c] + u, p + [d] + v, |p|);
      }
    } else {
      var s, t := p + [c] + [], p + [d] + [];
      assert Classes(s) == Classes(t);
      OrderOfClasses(s, t);
      assert !(B79(s) < B79(t));
    }
  }
}
