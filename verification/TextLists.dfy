/** Lists of text entries as the gateway cleans them: trimmed, blanks dropped, first occurrences kept. */
module TextLists {
  import opened Text

  /** The entries of a list that are not blank, trimmed. */
  function Trimmed(lines: seq<string>): seq<string> {
    if lines == [] then []
    else
      var n := |lines| - 1;
      var before := Trimmed(lines[..n]);
      if TrimSpace(lines[n]) == "" then before else before + [TrimSpace(lines[n])]
  }

  /** The entries not yet seen, each once, in order of first appearance. */
  function Unseen(keys: seq<string>, seen: set<string>): seq<string> {
    if keys == [] then []
    else
      var n := |keys| - 1;
      var before := Unseen(keys[..n], seen);
      if keys[n] in seen || keys[n] in before then before else before + [keys[n]]
  }

  function SetOf(keys: seq<string>): set<string> {
    set k | k in keys
  }

  ghost predicate Distinct(keys: seq<string>) {
    forall i, j :: 0 <= i < j < |keys| ==> keys[i] != keys[j]
  }

  /** Every entry is trimmed and not blank. */
  ghost predicate Clean(keys: seq<string>) {
    forall i :: 0 <= i < |keys| ==> keys[i] != "" && TrimSpace(keys[i]) == keys[i]
  }

  lemma TrimmedSnoc(lines: seq<string>, i: nat)
    requires i < |lines|
    ensures var before, last := Trimmed(lines[..i]), TrimSpace(lines[i]);
            Trimmed(lines[..i + 1]) == if last == "" then before else before + [last]
  {
    hide TrimSpace;
    assert lines[..i + 1][..i] == lines[..i];
  }

  lemma UnseenSnoc(keys: seq<string>, key: string, seen: set<string>)
    ensures var before := Unseen(keys, seen);
            Unseen(keys + [key], seen) == if key in seen || key in before then before else before + [key]
  {
    assert (keys + [key])[..|keys|] == keys;
  }

  lemma {:induction false} TrimmedIsClean(lines: seq<string>)
    ensures Clean(Trimmed(lines))
  {
    hide TrimSpace;
    if lines != [] {
      TrimmedIsClean(lines[..|lines| - 1]);
      TrimSpaceFacts(lines[|lines| - 1]);
    }
  }

  lemma {:induction false} CleanIsTrimmed(keys: seq<string>)
    requires Clean(keys)
    ensures Trimmed(keys) == keys
  {
    hide TrimSpace;
    if keys != [] {
      var n := |keys| - 1;
      CleanIsTrimmed(keys[..n]);
      assert keys == keys[..n] + [keys[n]];
    }
  }

  lemma {:induction false} TrimmedIsAll(lines: seq<string>, k: string)
    ensures k in Trimmed(lines) <==> k != "" && exists i :: 0 <= i < |lines| && TrimSpace(lines[i]) == k
  {
    hide TrimSpace;
    if lines != [] {
      var n := |lines| - 1;
      TrimmedIsAll(lines[..n], k);
      assert forall i :: 0 <= i < n ==> lines[..n][i] == lines[i];
    }
  }

  lemma {:induction false} UnseenIsAll(keys: seq<string>, seen: set<string>, k: string)
    ensures k in Unseen(keys, seen) <==> k in keys && k !in seen
  {
    if keys != [] {
      var n := |keys| - 1;
      UnseenIsAll(keys[..n], seen, k);
      assert keys == keys[..n] + [keys[n]];
    }
  }

  lemma {:induction false} UnseenIsDistinct(keys: seq<string>, seen: set<string>)
    ensures Distinct(Unseen(keys, seen))
  {
    if keys != [] {
      UnseenIsDistinct(keys[..|keys| - 1], seen);
    }
  }

  lemma {:induction false} UnseenIsClean(keys: seq<string>, seen: set<string>)
    requires Clean(keys)
    ensures Clean(Unseen(keys, seen))
  {
    hide TrimSpace;
    if keys != [] {
      UnseenIsClean(keys[..|keys| - 1], seen);
    }
  }

  /** Distinct entries, none of them seen, all pass. */
  lemma {:induction false} DistinctAllPass(keys: seq<string>, seen: set<string>)
    requires Distinct(keys) && forall i :: 0 <= i < |keys| ==> keys[i] !in seen
    ensures Unseen(keys, seen) == keys
  {
    if keys != [] {
      var n := |keys| - 1;
      DistinctAllPass(keys[..n], seen);
      assert keys == keys[..n] + [keys[n]];
      assert forall i :: 0 <= i < n ==> keys[..n][i] != keys[n];
    }
  }

  // ---------------------------------------------------------------- the order names are in

  /** An x stands somewhere in front of a y. */
  ghost predicate Before(b: seq<string>, x: string, y: string) {
    exists p, q :: 0 <= p < q < |b| && b[p] == x && b[q] == y
  }

  /** Any two entries of a stand in b in the same order. */
  ghost predicate InOrder(a: seq<string>, b: seq<string>) {
    && (forall i :: 0 <= i < |a| ==> a[i] in b)
    && forall i, j :: 0 <= i < j < |a| ==> Before(b, a[i], a[j])
  }

  lemma BeforeSnoc(b: seq<string>, x: string, y: string, k: string)
    ensures Before(b, x, y) ==> Before(b + [k], x, y)
    ensures x in b ==> Before(b + [k], x, k)
  {
    var d := b + [k];
    if p, q :| 0 <= p < q < |b| && b[p] == x && b[q] == y {
      assert d[p] == x && d[q] == y;
    }
    if p :| 0 <= p < |b| && b[p] == x {
      assert d[p] == x && d[|b|] == k;
    }
  }

  lemma InOrderSnoc(a: seq<string>, b: seq<string>, k: string)
    requires InOrder(a, b)
    ensures InOrder(a, b + [k]) && InOrder(a + [k], b + [k])
  {
    hide Before;
    var c, d := a + [k], b + [k];
    forall i, j | 0 <= i < j < |c| ensures Before(d, c[i], c[j]) {
      BeforeSnoc(b, c[i], c[j], k);
    }
    forall i, j | 0 <= i < j < |a| ensures Before(d, a[i], a[j]) {
      BeforeSnoc(b, a[i], a[j], k);
    }
  }

  /** What is not yet seen keeps its order. */
  lemma {:induction false} UnseenInOrder(keys: seq<string>, seen: set<string>)
    ensures InOrder(Unseen(keys, seen), keys)
  {
    if keys != [] {
      var n := |keys| - 1;
      UnseenInOrder(keys[..n], seen);
      hide InOrder;
      InOrderSnoc(Unseen(keys[..n], seen), keys[..n], keys[n]);
      assert keys == keys[..n] + [keys[n]];
    }
  }

  /** Every entry trimmed, blank or not. */
  ghost function EachTrimmed(lines: seq<string>): (r: seq<string>)
    ensures |r| == |lines| && forall i :: 0 <= i < |r| ==> r[i] == TrimSpace(lines[i])
  {
    seq(|lines|, i requires 0 <= i < |lines| => TrimSpace(lines[i]))
  }

  /** Trimmed entries keep their order. */
  lemma {:induction false} TrimmedInOrder(lines: seq<string>)
    ensures InOrder(Trimmed(lines), EachTrimmed(lines))
  {
    hide TrimSpace;
    if lines != [] {
      var n := |lines| - 1;
      TrimmedInOrder(lines[..n]);
      hide InOrder;
      InOrderSnoc(Trimmed(lines[..n]), EachTrimmed(lines[..n]), TrimSpace(lines[n]));
      assert EachTrimmed(lines) == EachTrimmed(lines[..n]) + [TrimSpace(lines[n])];
    }
  }

  lemma InOrderTransitive(a: seq<string>, b: seq<string>, c: seq<string>)
    requires InOrder(a, b) && InOrder(b, c)
    ensures InOrder(a, c)
  {
    forall i, j | 0 <= i < j < |a| ensures Before(c, a[i], a[j]) {
      var p, q :| 0 <= p < q < |b| && b[p] == a[i] && b[q] == a[j];
      assert Before(c, b[p], b[q]);
    }
  }

  /** Cleaned and without what was seen, entries stand in the order they came in. */
  lemma CleanedInOrder(lines: seq<string>, seen: set<string>)
    ensures InOrder(Unseen(Trimmed(lines), seen), EachTrimmed(lines))
  {
    hide InOrder, TrimSpace;
    TrimmedInOrder(lines);
    UnseenInOrder(Trimmed(lines), seen);
    InOrderTransitive(Unseen(Trimmed(lines), seen), Trimmed(lines), EachTrimmed(lines));
  }

  lemma SetOfConcat(a: seq<string>, b: seq<string>)
    ensures SetOf(a + b) == SetOf(a) + SetOf(b)
  {
  }
}
