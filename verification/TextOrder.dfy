/** The order sort.Strings puts names in, and lists that are in it. */
module TextOrder {
  import opened TextLists

  /** Go's < on strings. */
  predicate Less(a: string, b: string) {
    if b == "" then false
    else if a == "" then true
    else a[0] < b[0] || (a[0] == b[0] && Less(a[1..], b[1..]))
  }

  ghost predicate Ascending(names: seq<string>) {
    forall i, j :: 0 <= i < j < |names| ==> Less(names[i], names[j])
  }

  /** a comes before b exactly if it is a proper prefix of b, or smaller in the first place they differ. */
  lemma {:induction false} LessMeans(a: string, b: string)
    ensures Less(a, b) <==>
              a < b || exists i :: 0 <= i < |a| && i < |b| && a[..i] == b[..i] && a[i] < b[i]
  {
    if a != "" && b != "" && a[0] == b[0] {
      LessMeans(a[1..], b[1..]);
      assert a == [a[0]] + a[1..] && b == [b[0]] + b[1..];
      if i :| 0 <= i < |a| - 1 && i < |b| - 1 && a[1..][..i] == b[1..][..i] && a[1..][i] < b[1..][i] {
        assert a[..i + 1] == [a[0]] + a[1..][..i] && b[..i + 1] == [b[0]] + b[1..][..i];
        assert a[i + 1] < b[i + 1];
      }
      if i :| 0 <= i < |a| && i < |b| && a[..i] == b[..i] && a[i] < b[i] {
        assert a[1..][..i - 1] == a[..i][1..] && b[1..][..i - 1] == b[..i][1..];
        assert a[1..][i - 1] < b[1..][i - 1];
      }
    } else if a != "" && b != "" {
      assert a[..0] == b[..0];
      if i :| 0 <= i < |a| && i < |b| && a[..i] == b[..i] && a[i] < b[i] {
        assert i > 0 ==> a[..i][0] == b[..i][0];
      }
    }
  }

  lemma {:induction false} Irreflexive(a: string)
    ensures !Less(a, a)
  {
    if a != "" { Irreflexive(a[1..]); }
  }

  lemma {:induction false} Transitive(a: string, b: string, c: string)
    requires Less(a, b) && Less(b, c)
    ensures Less(a, c)
  {
    if a != "" && a[0] == b[0] && b[0] == c[0] { Transitive(a[1..], b[1..], c[1..]); }
  }

  lemma {:induction false} Total(a: string, b: string)
    ensures Less(a, b) || a == b || Less(b, a)
  {
    if a != "" && b != "" && a[0] == b[0] {
      Total(a[1..], b[1..]);
      assert a == [a[0]] + a[1..] && b == [b[0]] + b[1..];
    }
  }

  // ---------------------------------------------------------------- sorting

  function Insert(name: string, sorted: seq<string>): seq<string> {
    if sorted == [] || Less(name, sorted[0]) then [name] + sorted
    else [sorted[0]] + Insert(name, sorted[1..])
  }

  /** sort.Strings. */
  function Sort(names: seq<string>): seq<string> {
    if names == [] then [] else Insert(names[0], Sort(names[1..]))
  }

  lemma HeadSet(head: string, tail: seq<string>)
    ensures SetOf([head] + tail) == {head} + SetOf(tail)
  {
    SetOfConcat([head], tail);
  }

  lemma {:induction false} InsertKeeps(name: string, sorted: seq<string>)
    ensures SetOf(Insert(name, sorted)) == SetOf(sorted) + {name}
  {
    if sorted == [] || Less(name, sorted[0]) {
      HeadSet(name, sorted);
    } else {
      InsertKeeps(name, sorted[1..]);
      HeadSet(sorted[0], Insert(name, sorted[1..]));
      HeadSet(sorted[0], sorted[1..]);
      assert sorted == [sorted[0]] + sorted[1..];
    }
  }

  lemma {:induction false} SortKeeps(names: seq<string>)
    ensures SetOf(Sort(names)) == SetOf(names)
  {
    if names != [] {
      SortKeeps(names[1..]);
      InsertKeeps(names[0], Sort(names[1..]));
      HeadSet(names[0], names[1..]);
      assert names == [names[0]] + names[1..];
    }
  }

  lemma HeadFirst(head: string, tail: seq<string>)
    requires Ascending(tail)
    requires |tail| > 0 ==> Less(head, tail[0])
    ensures Ascending([head] + tail)
  {
    var s := [head] + tail;
    forall i, j | 0 <= i < j < |s| ensures Less(s[i], s[j]) {
      if i == 0 && j > 1 { Transitive(head, tail[0], tail[j - 1]); }
    }
  }

  lemma {:induction false} InsertAscends(name: string, sorted: seq<string>)
    requires Ascending(sorted) && name !in sorted
    ensures Ascending(Insert(name, sorted))
  {
    if sorted == [] || Less(name, sorted[0]) {
      HeadFirst(name, sorted);
    } else {
      Total(name, sorted[0]);
      InsertAscends(name, sorted[1..]);
      HeadFirst(sorted[0], Insert(name, sorted[1..]));
    }
  }

  lemma {:induction false} SortAscends(names: seq<string>)
    requires Distinct(names)
    ensures Ascending(Sort(names))
  {
    if names != [] {
      SortAscends(names[1..]);
      SortKeeps(names[1..]);
      assert names[0] !in SetOf(names[1..]);
      assert names[0] !in SetOf(Sort(names[1..]));
      InsertAscends(names[0], Sort(names[1..]));
    }
  }

  // ---------------------------------------------------------------- one order only

  lemma HeadIsLeast(names: seq<string>, name: string)
    requires |names| > 0 && Ascending(names) && name in names
    ensures name == names[0] || Less(names[0], name)
  {
  }

  lemma TailSet(names: seq<string>)
    requires |names| > 0 && Ascending(names)
    ensures SetOf(names[1..]) == SetOf(names) - {names[0]}
  {
    assert names == [names[0]] + names[1..];
    Irreflexive(names[0]);
  }

  /** A set of names has one ascending listing: what is computed from it does not depend on how the
      set was walked. */
  lemma {:induction false} OneAscendingListing(a: seq<string>, b: seq<string>)
    requires Ascending(a) && Ascending(b)
    requires SetOf(a) == SetOf(b)
    ensures a == b
  {
    if |b| > 0 { assert b[0] in SetOf(b); }
    if |a| > 0 {
      assert a[0] in SetOf(a);
      HeadIsLeast(b, a[0]);
      HeadIsLeast(a, b[0]);
      if a[0] != b[0] {
        Transitive(a[0], b[0], a[0]);
        Irreflexive(a[0]);
        assert false;
      }
      TailSet(a);
      TailSet(b);
      OneAscendingListing(a[1..], b[1..]);
      assert a == [a[0]] + a[1..] && b == [b[0]] + b[1..];
    }
  }

  /** The keys of a map, walked in any order. */
  method Keys<V>(m: map<string, V>) returns (names: seq<string>)
    ensures Distinct(names)
    ensures SetOf(names) == m.Keys
  {
    names := [];
    var left := m.Keys;
    while left != {}
      invariant Distinct(names)
      invariant SetOf(names) !! left && SetOf(names) + left == m.Keys
      decreases left
    {
      var name :| name in left;
      assert name !in SetOf(names);
      assert SetOf(names + [name]) == SetOf(names) + {name};
      names := names + [name];
      left := left - {name};
    }
  }
}
