/** Node names, their lexicographic order, and sorting without repetition. */
module Names {

  /** A name is a value of its own, so that lists of names are not lists of lists. */
  datatype Name = Name(text: string)

  /** Strict lexicographic order, the order of Go's sort.Strings. */
  predicate Before(a: Name, b: Name) {
    TextBefore(a.text, b.text)
  }

  predicate TextBefore(a: string, b: string) {
    if b == [] then false
    else if a == [] then true
    else a[0] < b[0] || (a[0] == b[0] && TextBefore(a[1..], b[1..]))
  }

  /** a and b agree on k characters; then a ends, or has the smaller character. */
  ghost predicate SmallerAt(a: string, b: string, k: nat) {
    k <= |a| && k < |b| && a[..k] == b[..k] && (k == |a| || a[k] < b[k])
  }

  lemma {:induction false} BeforeIsLexicographic(a: string, b: string)
    ensures TextBefore(a, b) <==> exists k :: SmallerAt(a, b, k)
  {
    forall k: nat | k > 0 && SmallerAt(a, b, k)
      ensures a[0] == b[0]
    {
      assert a[..k][0] == b[..k][0];
    }
    if a != [] && b != [] && a[0] == b[0] {
      BeforeIsLexicographic(a[1..], b[1..]);
      if k: nat :| SmallerAt(a[1..], b[1..], k) {
        assert a[..k + 1] == [a[0]] + a[1..][..k] && b[..k + 1] == [b[0]] + b[1..][..k];
        assert SmallerAt(a, b, k + 1);
      }
      if k: nat :| SmallerAt(a, b, k) {
        assert a[1..][..k - 1] == a[..k][1..] && b[1..][..k - 1] == b[..k][1..];
        assert SmallerAt(a[1..], b[1..], k - 1);
      }
    } else if TextBefore(a, b) {
      assert SmallerAt(a, b, 0);
    }
  }

  lemma {:induction false} TextAsymmetric(a: string, b: string)
    requires TextBefore(a, b)
    ensures !TextBefore(b, a) && a != b
  {
    if a != [] && a[0] == b[0] {
      TextAsymmetric(a[1..], b[1..]);
    }
  }

  lemma {:induction false} TextTransitive(a: string, b: string, c: string)
    requires TextBefore(a, b) && TextBefore(b, c)
    ensures TextBefore(a, c)
  {
    if a != [] && a[0] == b[0] == c[0] {
      TextTransitive(a[1..], b[1..], c[1..]);
    }
  }

  lemma {:induction false} TextTotal(a: string, b: string)
    ensures a == b || TextBefore(a, b) || TextBefore(b, a)
  {
    if a != [] && b != [] && a[0] == b[0] {
      TextTotal(a[1..], b[1..]);
      if a[1..] == b[1..] {
        assert a == [a[0]] + a[1..] == b;
      }
    }
  }

  /** The set of elements of a sequence. */
  function Elements<T>(s: seq<T>): set<T> {
    set x | x in s
  }

  lemma ElementsConcat<T>(a: seq<T>, b: seq<T>)
    ensures Elements(a + b) == Elements(a) + Elements(b)
    ensures forall x: T :: Elements([x]) == {x}
  {
    assert forall x :: x in a + b <==> x in a || x in b;
  }

  predicate NoRepeats<T(==)>(s: seq<T>) {
    forall i, j :: 0 <= i < j < |s| ==> s[i] != s[j]
  }

  /** A repetition-free sequence has as many entries as elements. */
  lemma {:induction false} NoRepeatsSize<T>(s: seq<T>)
    requires NoRepeats(s)
    ensures |Elements(s)| == |s|
  {
    if s != [] {
      var n := |s| - 1;
      NoRepeatsSize(s[..n]);
      assert Elements(s) == Elements(s[..n]) + {s[n]};
    }
  }

  ghost predicate Ascending(s: seq<Name>) {
    forall i, j {:trigger Before(s[i], s[j])} :: 0 <= i < j < |s| ==> Before(s[i], s[j])
  }

  lemma AscendingNoRepeats(s: seq<Name>)
    requires Ascending(s)
    ensures NoRepeats(s)
  {
    forall i, j | 0 <= i < j < |s|
      ensures s[i] != s[j]
    {
      assert Before(s[i], s[j]);
      TextAsymmetric(s[i].text, s[j].text);
    }
  }

  /** Insertion of one name into a sorted sequence. */
  function Insert(x: Name, s: seq<Name>): (r: seq<Name>)
    ensures Elements(r) == Elements(s) + {x}
    ensures |r| == |s| + 1
  {
    if s == [] then [x]
    else if Before(s[0], x) then
      ElementsConcat([s[0]], s[1..]);
      ElementsConcat([s[0]], Insert(x, s[1..]));
      assert s == [s[0]] + s[1..];
      [s[0]] + Insert(x, s[1..])
    else
      ElementsConcat([x], s);
      [x] + s
  }

  lemma {:induction false} InsertAscending(x: Name, s: seq<Name>)
    requires Ascending(s) && x !in s
    ensures Ascending(Insert(x, s))
  {
    if s != [] {
      var r := Insert(x, s);
      if Before(s[0], x) {
        InsertAscending(x, s[1..]);
        assert r == [s[0]] + Insert(x, s[1..]);
        forall j | 0 < j < |r|
          ensures Before(r[0], r[j])
        {
          assert r[j] in Elements(Insert(x, s[1..]));
          assert r[j] == x || r[j] in s[1..];
        }
        forall i, j | 0 < i < j < |r|
          ensures Before(r[i], r[j])
        {
          assert r[i] == Insert(x, s[1..])[i - 1] && r[j] == Insert(x, s[1..])[j - 1];
        }
      } else {
        TextTotal(x.text, s[0].text);
        forall j | 0 < j < |r|
          ensures Before(r[0], r[j])
        {
          if j > 1 {
            assert Before(s[0], s[j - 1]);
            TextTransitive(x.text, s[0].text, s[j - 1].text);
          }
        }
      }
    }
  }

  /** sort.Strings on a list of names. */
  function SortStrings(s: seq<Name>): (r: seq<Name>)
    ensures Elements(r) == Elements(s)
    ensures |r| == |s|
  {
    if s == [] then []
    else
      ElementsConcat([s[0]], s[1..]);
      assert s == [s[0]] + s[1..];
      Insert(s[0], SortStrings(s[1..]))
  }

  lemma {:induction false} SortAscending(s: seq<Name>)
    requires NoRepeats(s)
    ensures Ascending(SortStrings(s))
  {
    if s != [] {
      SortAscending(s[1..]);
      assert s[0] !in s[1..];
      assert s[0] !in Elements(SortStrings(s[1..]));
      InsertAscending(s[0], SortStrings(s[1..]));
    }
  }

  lemma {:induction false} ListingExists(names: set<Name>) returns (r: seq<Name>)
    ensures Ascending(r) && Elements(r) == names
  {
    if names == {} {
      r := [];
    } else {
      var x :| x in names;
      var rest := ListingExists(names - {x});
      assert x !in Elements(rest);
      InsertAscending(x, rest);
      r := Insert(x, rest);
    }
  }

  /** The ascending listing of a finite set of names. */
  ghost function Listing(names: set<Name>): (r: seq<Name>)
    ensures Elements(r) == names
    ensures NoRepeats(r)
    ensures r == [] <==> names == {}
  {
    assert exists r :: Ascending(r) && Elements(r) == names by {
      var r := ListingExists(names);
    }
    var r :| Ascending(r) && Elements(r) == names;
    AscendingNoRepeats(r);
    assert r != [] ==> r[0] in Elements(r);
    r
  }

  lemma AscendingHead(s: seq<Name>, t: seq<Name>)
    requires Ascending(s) && Ascending(t) && Elements(s) == Elements(t)
    requires s != []
    ensures t != [] && s[0] == t[0]
  {
    assert s[0] in Elements(t);
    assert t[0] in Elements(s);
    var i :| 0 <= i < |t| && t[i] == s[0];
    var j :| 0 <= j < |s| && s[j] == t[0];
    assert i != 0 ==> Before(t[0], t[i]);
    assert j != 0 ==> Before(s[0], s[j]);
    if i != 0 && j != 0 {
      TextAsymmetric(t[0].text, s[0].text);
    }
  }

  /** A set has only one ascending listing: sorting forgets the order of its input. */
  lemma {:induction false} AscendingUnique(s: seq<Name>, t: seq<Name>)
    requires Ascending(s) && Ascending(t) && Elements(s) == Elements(t)
    ensures s == t
  {
    if s == [] {
      assert forall i :: 0 <= i < |t| ==> t[i] in Elements(t);
    } else {
      AscendingHead(s, t);
      AscendingNoRepeats(s);
      AscendingNoRepeats(t);
      assert Elements(s[1..]) == Elements(s) - {s[0]};
      assert Elements(t[1..]) == Elements(t) - {t[0]};
      AscendingUnique(s[1..], t[1..]);
      assert s == [s[0]] + s[1..] && t == [t[0]] + t[1..];
    }
  }

  lemma SortIsListing(s: seq<Name>)
    requires NoRepeats(s)
    ensures SortStrings(s) == Listing(Elements(s))
  {
    SortAscending(s);
    AscendingUnique(SortStrings(s), Listing(Elements(s)));
  }
}
