/** The iteration order of the program's ordered maps: keys in lexicographic order. */
module Order {

  predicate Less(a: string, b: string) {
    b != "" && (a == "" || a[0] < b[0] || (a[0] == b[0] && Less(a[1..], b[1..])))
  }

  lemma {:induction false} LessTrans(a: string, b: string, c: string)
    requires Less(a, b) && Less(b, c)
    ensures Less(a, c)
  {
    if a != "" && a[0] == b[0] == c[0] {
      LessTrans(a[1..], b[1..], c[1..]);
    }
  }

  lemma {:induction false} LessTotal(a: string, b: string)
    ensures a == b || Less(a, b) || Less(b, a)
    ensures !(Less(a, b) && Less(b, a))
    ensures !Less(a, a)
  {
    if a != "" && b != "" && a[0] == b[0] {
      LessTotal(a[1..], b[1..]);
      assert a == [a[0]] + a[1..] && b == [b[0]] + b[1..];
    }
    if a != "" {
      LessTotal(a[1..], a[1..]);
    }
  }

  /** A path comes before everything that extends it: a directory before its children. */
  lemma {:induction false} PrefixLess(a: string, b: string)
    requires a <= b && a != b
    ensures Less(a, b)
  {
    if a != "" {
      assert a[1..] <= b[1..];
      assert a == [a[0]] + a[1..] && b == [b[0]] + b[1..];
      PrefixLess(a[1..], b[1..]);
    }
  }

  predicate IsSmallest(m: string, keys: set<string>) {
    m in keys && forall k <- keys :: k == m || Less(m, k)
  }

  lemma SmallestExists(keys: set<string>) returns (m: string)
    requires keys != {}
    ensures IsSmallest(m, keys)
  {
    var k :| k in keys;
    m := k;
    if keys != {k} {
      assert keys == {k} + (keys - {k});
      var r := SmallestExists(keys - {k});
      LessTotal(k, r);
      m := if Less(r, k) then r else k;
      forall x | x in keys ensures x == m || Less(m, x) {
        if x != k && x != m && m == k {
          if x != r { LessTrans(k, r, x); }
        }
      }
    }
  }

  lemma SmallestUnique(a: string, b: string, keys: set<string>)
    requires IsSmallest(a, keys) && IsSmallest(b, keys)
    ensures a == b
  {
    LessTotal(a, b);
  }

  lemma SmallestIsDefined(keys: set<string>)
    requires keys != {}
    ensures exists m :: m in keys && IsSmallest(m, keys)
    ensures forall a, b | IsSmallest(a, keys) && IsSmallest(b, keys) :: a == b
  {
    var m := SmallestExists(keys);
    forall a, b | IsSmallest(a, keys) && IsSmallest(b, keys) ensures a == b { SmallestUnique(a, b, keys); }
  }

  function Smallest(keys: set<string>): (m: string)
    requires keys != {}
    ensures IsSmallest(m, keys)
  {
    SmallestIsDefined(keys);
    var m :| m in keys && IsSmallest(m, keys);
    m
  }

  /** The keys of an ordered map in iteration order. */
  function Sorted(keys: set<string>): (s: seq<string>)
    ensures forall k :: k in s <==> k in keys
    decreases |keys|
  {
    if keys == {} then [] else var m := Smallest(keys); [m] + Sorted(keys - {m})
  }

  lemma {:induction false} SortedIncreases(keys: set<string>, i: nat, j: nat)
    requires i < j < |Sorted(keys)|
    ensures Less(Sorted(keys)[i], Sorted(keys)[j])
    decreases |keys|
  {
    var m := Smallest(keys);
    var rest := Sorted(keys - {m});
    if i == 0 {
      assert rest[j - 1] in rest;
    } else {
      SortedIncreases(keys - {m}, i - 1, j - 1);
    }
  }

  /** A smaller key is met earlier. */
  lemma SortedFinds(keys: set<string>, k: string, j: nat) returns (i: nat)
    requires j < |Sorted(keys)| && k in keys && Less(k, Sorted(keys)[j])
    ensures i < j && Sorted(keys)[i] == k
  {
    i :| 0 <= i < |Sorted(keys)| && Sorted(keys)[i] == k;
    LessTotal(k, Sorted(keys)[j]);
    if j < i {
      SortedIncreases(keys, j, i);
    }
  }
}
