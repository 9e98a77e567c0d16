/**
  * The QStringList operations an ExceptionGroup relies on: join with a
  * separator, QString::split (empty parts kept), and removeAll.
  */
module StringLists {

  const Sep: char := ';'

  /** QStringList::join(";"): the items with one separator between neighbours. */
  function Join(items: seq<string>): (r: string)
    ensures |items| == 0 ==> r == ""
    ensures |items| == 1 ==> r == items[0]
  {
    if |items| == 0 then ""
    else if |items| == 1 then items[0]
    else items[0] + [Sep] + Join(items[1..])
  }

  /** QString::split(";") with empty parts kept: always at least one part, none holding the separator. */
  function Split(s: string): (parts: seq<string>)
    ensures |parts| >= 1
    ensures forall i :: 0 <= i < |parts| ==> Sep !in parts[i]
  {
    if |s| == 0 then [""]
    else
      var rest := Split(s[1..]);
      if s[0] == Sep then [""] + rest
      else [[s[0]] + rest[0]] + rest[1..]
  }

  /** Splitting a part that holds no separator gives back just that part. */
  lemma {:induction false} SplitPlain(a: string)
    requires Sep !in a
    ensures Split(a) == [a]
  {
    if |a| > 0 {
      SplitPlain(a[1..]);
      assert [a[0]] + a[1..] == a;
    }
  }

  /** A leading part followed by the separator splits off as one item. */
  lemma {:induction false} SplitHead(a: string, t: string)
    requires Sep !in a
    ensures Split(a + [Sep] + t) == [a] + Split(t)
  {
    if |a| == 0 {
      assert a + [Sep] + t == [Sep] + t;
      assert ([Sep] + t)[1..] == t;
    } else {
      SplitHead(a[1..], t);
      assert (a + [Sep] + t)[1..] == a[1..] + [Sep] + t;
      assert [a[0]] + a[1..] == a;
    }
  }

  /** split(join(xs)) == xs for a non-empty list whose items hold no separator. */
  lemma {:induction false} SplitJoin(items: seq<string>)
    requires |items| >= 1
    requires forall i :: 0 <= i < |items| ==> Sep !in items[i]
    ensures Split(Join(items)) == items
  {
    if |items| == 1 {
      SplitPlain(items[0]);
    } else {
      SplitJoin(items[1..]);
      SplitHead(items[0], Join(items[1..]));
      assert [items[0]] + items[1..] == items;
    }
  }

  /** join(split(s)) == s for every string. */
  lemma {:induction false} JoinSplit(s: string)
    ensures Join(Split(s)) == s
  {
    if |s| > 0 {
      JoinSplit(s[1..]);
      var rest := Split(s[1..]);
      if s[0] == Sep {
        assert ([""] + rest)[1..] == rest;
        assert [s[0]] + s[1..] == s;
      } else {
        var parts := [[s[0]] + rest[0]] + rest[1..];
        assert parts[1..] == rest[1..];
        if |rest| == 1 {
          assert Join(rest) == rest[0];
        } else {
          assert Join(rest) == rest[0] + [Sep] + Join(rest[1..]);
        }
        assert [s[0]] + s[1..] == s;
      }
    }
  }

  /** The join of a list is empty exactly for the empty list and the list of one empty item. */
  lemma {:induction false} JoinEmpty(items: seq<string>)
    ensures Join(items) == "" <==> items == [] || items == [""]
  {
    if |items| >= 2 {
      assert |Join(items)| >= 1;
    }
  }

  /** QList::removeAll: the list without any occurrence of x, every other item as often as before. */
  function RemoveAll(items: seq<string>, x: string): (r: seq<string>)
    ensures x !in r
    ensures |r| <= |items|
    ensures forall y :: y != x ==> multiset(r)[y] == multiset(items)[y]
  {
    if |items| == 0 then []
    else
      var rest := RemoveAll(items[1..], x);
      assert items == [items[0]] + items[1..];
      if items[0] == x then rest else [items[0]] + rest
  }

  /** removeAll adds nothing new, and leaves a list without x as it is. */
  lemma {:induction false} RemoveAllSubset(items: seq<string>, x: string, y: seq<string>)
    requires y == RemoveAll(items, x)
    ensures forall i :: 0 <= i < |y| ==> y[i] in items
    ensures x !in items ==> y == items
  {
    if |items| > 0 {
      RemoveAllSubset(items[1..], x, RemoveAll(items[1..], x));
    }
  }

  /**
    * removeAll works piecewise: on a concatenation it is the concatenation of
    * the removals, so the items that stay keep their relative order.
    */
  lemma {:induction false} RemoveAllAppend(a: seq<string>, b: seq<string>, x: string)
    ensures RemoveAll(a + b, x) == RemoveAll(a, x) + RemoveAll(b, x)
  {
    if |a| > 0 {
      RemoveAllAppend(a[1..], b, x);
      assert (a + b)[1..] == a[1..] + b;
    } else {
      assert a + b == b;
    }
  }

  /** Removing x twice is removing it once. */
  lemma {:induction false} RemoveAllIdempotent(items: seq<string>, x: string)
    ensures RemoveAll(RemoveAll(items, x), x) == RemoveAll(items, x)
  {
    RemoveAllSubset(RemoveAll(items, x), x, RemoveAll(RemoveAll(items, x), x));
  }

  /** No item occurs twice. */
  predicate Distinct(items: seq<string>)
  {
    forall i, j :: 0 <= i < j < |items| ==> items[i] != items[j]
  }
}
