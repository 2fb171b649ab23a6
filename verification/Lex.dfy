/** Lexicographic order of sequences, by the keys of their elements. */
module Lex {

  predicate Less<T>(a: seq<T>, b: seq<T>, key: T -> int) {
    if |b| == 0 then false
    else if |a| == 0 then true
    else key(a[0]) < key(b[0]) || (key(a[0]) == key(b[0]) && Less(a[1..], b[1..], key))
  }

  lemma {:induction false} Asymmetric<T>(a: seq<T>, b: seq<T>, key: T -> int)
    requires Less(a, b, key)
    ensures !Less(b, a, key) && a != b
  {
    if |a| > 0 && key(a[0]) == key(b[0]) { Asymmetric(a[1..], b[1..], key); }
  }

  lemma {:induction false} Transitive<T>(a: seq<T>, b: seq<T>, c: seq<T>, key: T -> int)
    requires Less(a, b, key) && Less(b, c, key)
    ensures Less(a, c, key)
  {
    if |a| > 0 && key(a[0]) == key(b[0]) == key(c[0]) { Transitive(a[1..], b[1..], c[1..], key); }
  }

  ghost predicate Injective<T(!new)>(key: T -> int) {
    forall x, y :: key(x) == key(y) ==> x == y
  }

  lemma {:induction false} Total<T(!new)>(a: seq<T>, b: seq<T>, key: T -> int)
    requires Injective(key)
    ensures Less(a, b, key) || a == b || Less(b, a, key)
  {
    if |a| > 0 && |b| > 0 {
      Total(a[1..], b[1..], key);
      if key(a[0]) == key(b[0]) && a[1..] == b[1..] {
        assert a == [a[0]] + a[1..] && b == [b[0]] + b[1..];
      }
    }
  }

  /** Between sequences of equal length the first difference decides, so a common length of leading
      elements is compared before what follows. */
  lemma {:induction false} Concat<T(!new)>(a: seq<T>, b: seq<T>, x: seq<T>, y: seq<T>, key: T -> int)
    requires Injective(key) && |a| == |b|
    ensures Less(a + x, b + y, key) <==> Less(a, b, key) || (a == b && Less(x, y, key))
  {
    if |a| == 0 {
      assert a + x == x && b + y == y;
    } else {
      Concat(a[1..], b[1..], x, y, key);
      assert (a + x)[1..] == a[1..] + x && (b + y)[1..] == b[1..] + y;
      assert (a + x)[0] == a[0] && (b + y)[0] == b[0];
      assert a == [a[0]] + a[1..] && b == [b[0]] + b[1..];
    }
  }
}
