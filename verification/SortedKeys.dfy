/** `std::string` comparison and the key order in which a `std::map<std::string, T>` is traversed. */
module SortedKeys {

  /** `operator<` of `std::string`: lexicographic on characters. */
  predicate StringLess(a: string, b: string) {
    if b == "" then false
    else if a == "" then true
    else a[0] < b[0] || (a[0] == b[0] && StringLess(a[1..], b[1..]))
  }

  lemma {:induction false} StringTrichotomy(a: string, b: string)
    ensures StringLess(a, b) || StringLess(b, a) || a == b
    ensures !(StringLess(a, b) && StringLess(b, a))
    ensures !StringLess(a, a)
  {
    if a != "" {
      if b != "" {
        StringTrichotomy(a[1..], b[1..]);
        if a[0] == b[0] && a[1..] == b[1..] {
          assert a == [a[0]] + a[1..] == b;
        }
      }
      StringTrichotomy(a[1..], a[1..]);
    }
  }

  lemma {:induction false} StringLessTransitive(a: string, b: string, c: string)
    requires StringLess(a, b) && StringLess(b, c)
    ensures StringLess(a, c)
  {
    if a != "" && a[0] == b[0] && b[0] == c[0] {
      StringLessTransitive(a[1..], b[1..], c[1..]);
    }
  }

  predicate IsLeast(k: string, keys: set<string>) {
    k in keys && forall other | other in keys && other != k :: StringLess(k, other)
  }

  lemma LeastExists(keys: set<string>) returns (least: string)
    requires keys != {}
    ensures IsLeast(least, keys)
  {
    var k :| k in keys;
    if keys == {k} {
      least := k;
    } else {
      var rest := keys - {k};
      var candidate := LeastExists(rest);
      StringTrichotomy(k, candidate);
      if StringLess(k, candidate) {
        least := k;
        forall other | other in keys && other != k ensures StringLess(k, other) {
          if other != candidate {
            StringLessTransitive(k, candidate, other);
          }
        }
      } else {
        least := candidate;
      }
    }
  }

  lemma LeastIsUnique(keys: set<string>)
    ensures forall a, b | IsLeast(a, keys) && IsLeast(b, keys) :: a == b
  {
    forall a, b | IsLeast(a, keys) && IsLeast(b, keys) ensures a == b {
      StringTrichotomy(a, b);
    }
  }

  function Least(keys: set<string>): (least: string)
    requires keys != {}
    ensures IsLeast(least, keys)
  {
    assert exists k :: IsLeast(k, keys) by {
      var least := LeastExists(keys);
    }
    LeastIsUnique(keys);
    var k :| IsLeast(k, keys);
    k
  }

  predicate Ascending(ks: seq<string>) {
    forall i, j | 0 <= i < j < |ks| :: StringLess(ks[i], ks[j])
  }

  /** The keys of a map in iteration order. */
  function Sorted(keys: set<string>): (ks: seq<string>)
    ensures forall k :: k in ks <==> k in keys
    ensures Ascending(ks)
    decreases |keys|
  {
    if keys == {} then []
    else
      var least := Least(keys);
      var rest := Sorted(keys - {least});
      [least] + rest
  }

  lemma AscendingIsDistinct(ks: seq<string>)
    requires Ascending(ks)
    ensures forall i, j | 0 <= i < j < |ks| :: ks[i] != ks[j]
  {
    forall i, j | 0 <= i < j < |ks| ensures ks[i] != ks[j] {
      StringTrichotomy(ks[i], ks[j]);
    }
  }
}
