/** Lexicographic order of strings by code point, as Python compares them. */
module Text {

  predicate Less(a: string, b: string) {
    b != [] && (a == [] || a[0] < b[0] || (a[0] == b[0] && Less(a[1..], b[1..])))
  }

  lemma {:induction false} LessIsTotal(a: string, b: string)
    ensures a == b || Less(a, b) || Less(b, a)
    ensures !(Less(a, b) && Less(b, a))
    ensures a == b ==> !Less(a, b)
  {
    if a != [] && b != [] {
      LessIsTotal(a[1..], b[1..]);
      assert a == [a[0]] + a[1..] && b == [b[0]] + b[1..];
    }
  }

  lemma {:induction false} LessIsTransitive(a: string, b: string, c: string)
    requires Less(a, b) && Less(b, c)
    ensures Less(a, c)
  {
    if a != [] && a[0] == b[0] && b[0] == c[0] {
      LessIsTransitive(a[1..], b[1..], c[1..]);
    }
  }

  /** The texts agree up to `i`, and there `a` has the smaller code point. */
  predicate SmallerAt(a: string, b: string, i: nat) {
    i < |a| && i < |b| && a[..i] == b[..i] && (a[i] as int) < (b[i] as int)
  }

  /** `a` is a proper prefix of `b`, or has the smaller code point at the first place where they differ. */
  ghost predicate Precedes(a: string, b: string) {
    (a <= b && |a| < |b|) || exists i :: SmallerAt(a, b, i)
  }

  /** What the order is. */
  lemma {:induction false} LessIff(a: string, b: string)
    ensures Less(a, b) <==> Precedes(a, b)
  {
    if a == [] || b == [] {
      assert [] <= b;
    } else if a[0] == b[0] {
      LessIff(a[1..], b[1..]);
      assert a == [a[0]] + a[1..] && b == [b[0]] + b[1..];
      if Precedes(a[1..], b[1..]) {
        Longer(a, b);
      }
      if Precedes(a, b) {
        Shorter(a, b);
      }
    } else {
      assert a[..0] == b[..0];
      assert (a[0] as int) < (b[0] as int) ==> SmallerAt(a, b, 0);
      forall i: nat | SmallerAt(a, b, i) ensures i == 0 {
        if i > 0 {
          SameStart(a, b, i);
        }
      }
    }
  }

  lemma SameStart(a: string, b: string, i: nat)
    requires SmallerAt(a, b, i) && i > 0
    ensures a[0] == b[0]
  {
    assert a[..i][0] == a[0] && b[..i][0] == b[0];
  }

  lemma Longer(a: string, b: string)
    requires a != [] && b != [] && a[0] == b[0] && Precedes(a[1..], b[1..])
    ensures Precedes(a, b)
  {
    assert a == [a[0]] + a[1..] && b == [b[0]] + b[1..];
    if !(a[1..] <= b[1..] && |a| < |b|) {
      var i: nat :| SmallerAt(a[1..], b[1..], i);
      assert a[..i + 1] == [a[0]] + a[1..][..i] && b[..i + 1] == [b[0]] + b[1..][..i];
      assert SmallerAt(a, b, i + 1);
    }
  }

  lemma Shorter(a: string, b: string)
    requires a != [] && b != [] && a[0] == b[0] && Precedes(a, b)
    ensures Precedes(a[1..], b[1..])
  {
    if !(a <= b && |a| < |b|) {
      var i: nat :| SmallerAt(a, b, i);
      assert a[..i][1..] == a[1..][..i - 1] && b[..i][1..] == b[1..][..i - 1];
      assert SmallerAt(a[1..], b[1..], i - 1);
    } else {
      assert b[..|a|][1..] == b[1..][..|a| - 1];
    }
  }
}
