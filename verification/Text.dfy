/** The string helpers the gateway leans on: splitting and joining on a separator, trimming. */
module Text {

  const NEWLINE := '\n'

  /** No part contains the separator. */
  ghost predicate Free(parts: seq<string>, sep: char) {
    forall i :: 0 <= i < |parts| ==> sep !in parts[i]
  }

  /** strings.Split(s, sep) for a one-character separator: never empty, "" splits into [""]. */
  function Split(s: string, sep: char): (parts: seq<string>)
    ensures |parts| > 0
    ensures Free(parts, sep)
  {
    if s == "" then [""] else Push(s[0], Split(s[1..], sep), sep)
  }

  /** Parts of a text with one more character in front. */
  function Push(c: char, parts: seq<string>, sep: char): (r: seq<string>)
    requires |parts| > 0
    ensures |r| > 0 && (Free(parts, sep) ==> Free(r, sep))
  {
    if c == sep then [""] + parts else [[c] + parts[0]] + parts[1..]
  }

  /** strings.Join(parts, sep). */
  function Join(parts: seq<string>, sep: char): string {
    if |parts| == 0 then ""
    else if |parts| == 1 then parts[0]
    else parts[0] + [sep] + Join(parts[1..], sep)
  }

  function TrimLeft(s: string, cut: char -> bool): (r: string)
    ensures r == "" || !cut(r[0])
    ensures |r| <= |s| && r == s[|s| - |r|..]
    ensures forall i :: 0 <= i < |s| - |r| ==> cut(s[i])
  {
    if s != "" && cut(s[0]) then TrimLeft(s[1..], cut) else s
  }

  function TrimRight(s: string, cut: char -> bool): (r: string)
    ensures r == "" || !cut(r[|r| - 1])
    ensures |r| <= |s| && r == s[..|r|]
    ensures forall i :: |r| <= i < |s| ==> cut(s[i])
  {
    if s != "" && cut(s[|s| - 1]) then TrimRight(s[..|s| - 1], cut) else s
  }

  function Trim(s: string, cut: char -> bool): (r: string)
    ensures r == "" || (!cut(r[0]) && !cut(r[|r| - 1]))
    ensures forall c :: c in r ==> c in s
    ensures s == "" || (!cut(s[0]) && !cut(s[|s| - 1])) ==> r == s
    ensures r == "" <==> forall c :: c in s ==> cut(c)
  {
    var left := TrimLeft(s, cut);
    var r := TrimRight(left, cut);
    assert left != "" ==> r != "";
    assert r != "" ==> r[0] in s && !cut(r[0]);
    r
  }

  /** Trimming cuts at the two ends only, and as far as it can. */
  lemma TrimCutsEnds(s: string, cut: char -> bool) returns (i: nat, j: nat)
    ensures i <= j <= |s| && Trim(s, cut) == s[i..j]
    ensures (forall k :: 0 <= k < i ==> cut(s[k])) && (forall k :: j <= k < |s| ==> cut(s[k]))
    ensures i < j ==> !cut(s[i]) && !cut(s[j - 1])
  {
    hide TrimLeft, TrimRight;
    var left := TrimLeft(s, cut);
    var r := TrimRight(left, cut);
    i := |s| - |left|;
    j := i + |r|;
    assert forall k :: |r| <= k < |left| ==> left[k] == s[i + k];
    assert s[i..j] == left[..|r|];
  }

  /** unicode.IsSpace, the set strings.TrimSpace removes. */
  predicate IsSpace(c: char) {
    '\t' <= c <= '\r' || c == ' ' || c == '\U{0085}' || c == '\U{00A0}' || c == '\U{1680}'
    || '\U{2000}' <= c <= '\U{200A}' || c == '\U{2028}' || c == '\U{2029}' || c == '\U{202F}'
    || c == '\U{205F}' || c == '\U{3000}'
  }

  function TrimSpace(s: string): (r: string)
    ensures r == "" || (!IsSpace(r[0]) && !IsSpace(r[|r| - 1]))
  {
    Trim(s, IsSpace)
  }

  /** Trimming leaves trimmed text alone and brings in no new character. */
  lemma TrimSpaceFacts(s: string)
    ensures TrimSpace(TrimSpace(s)) == TrimSpace(s)
    ensures forall c :: c in TrimSpace(s) ==> c in s
  {
  }

  /** strings.Trim(s, c) for a one-character cut set. */
  function TrimChar(s: string, sep: char): (r: string)
    ensures r == "" || (r[0] != sep && r[|r| - 1] != sep)
    ensures s == "" || (s[0] != sep && s[|s| - 1] != sep) ==> r == s
    ensures r == "" <==> forall c :: c in s ==> c == sep
  {
    Trim(s, c => c == sep)
  }

  lemma {:induction false} SplitPrefix(p: string, s: string, sep: char)
    requires sep !in p
    ensures Split(p + s, sep) == [p + Split(s, sep)[0]] + Split(s, sep)[1..]
  {
    var head := Split(s, sep)[0];
    if p == "" {
      assert p + s == s && p + head == head;
      assert [head] + Split(s, sep)[1..] == Split(s, sep);
    } else {
      SplitPrefix(p[1..], s, sep);
      assert (p + s)[1..] == p[1..] + s;
      assert [p[0]] + (p[1..] + head) == p + head;
    }
  }

  /** Joining separator-free parts and splitting again gives the same parts. */
  lemma {:induction false} SplitJoin(parts: seq<string>, sep: char)
    requires |parts| > 0
    requires Free(parts, sep)
    ensures Split(Join(parts, sep), sep) == parts
  {
    if |parts| == 1 {
      SplitPrefix(parts[0], "", sep);
      assert parts[0] + "" == parts[0] && Split("", sep) == [""];
    } else {
      SplitJoin(parts[1..], sep);
      var rest := [sep] + Join(parts[1..], sep);
      assert rest[1..] == Join(parts[1..], sep);
      SplitPrefix(parts[0], rest, sep);
      assert Split(rest, sep) == [""] + parts[1..];
      assert parts[0] + "" == parts[0] && ([""] + parts[1..])[1..] == parts[1..];
      assert Join(parts, sep) == parts[0] + rest;
    }
  }

  /** Splitting and joining on the same separator is the identity on strings. */
  lemma {:induction false} JoinSplit(s: string, sep: char)
    ensures Join(Split(s, sep), sep) == s
  {
    if s != "" {
      JoinSplit(s[1..], sep);
      var rest := Split(s[1..], sep);
      if s[0] == sep {
        assert ([""] + rest)[1..] == rest;
      } else if |rest| > 1 {
        assert ([[s[0]] + rest[0]] + rest[1..])[1..] == rest[1..];
      }
    }
  }

  /** The first part is empty iff the string starts with the separator; likewise for the last. */
  lemma {:induction false} SplitEnds(s: string, sep: char)
    requires s != ""
    ensures Split(s, sep)[0] == "" <==> s[0] == sep
    ensures var parts := Split(s, sep); parts[|parts| - 1] == "" <==> s[|s| - 1] == sep
  {
    if |s| > 1 {
      SplitEnds(s[1..], sep);
    } else {
      assert s[1..] == "";
    }
  }

  lemma {:induction false} JoinEnds(parts: seq<string>, sep: char)
    requires |parts| > 0 && parts[0] != "" && parts[|parts| - 1] != ""
    ensures var s := Join(parts, sep);
            s != "" && s[0] == parts[0][0] && s[|s| - 1] == parts[|parts| - 1][|parts[|parts| - 1]| - 1]
  {
    if |parts| > 1 {
      if parts[1] != "" || |parts| == 2 {
        JoinEnds(parts[1..], sep);
      } else {
        JoinLast(parts[1..], sep);
      }
    }
  }

  lemma {:induction false} JoinLast(parts: seq<string>, sep: char)
    requires |parts| > 0 && parts[|parts| - 1] != ""
    ensures var s := Join(parts, sep);
            s != "" && s[|s| - 1] == parts[|parts| - 1][|parts[|parts| - 1]| - 1]
  {
    if |parts| > 1 { JoinLast(parts[1..], sep); }
  }

  /** How a stored list is read back: empty text is no entry, otherwise trim the separator and split. */
  function Parse(s: string, sep: char): (parts: seq<string>)
    ensures s != "" ==> |parts| > 0
    ensures Free(parts, sep)
  {
    if s == "" then [] else Split(TrimChar(s, sep), sep)
  }

  /** A stored list reads back as itself exactly when it has no blank entry at either end. */
  lemma ParseJoin(parts: seq<string>, sep: char)
    requires Free(parts, sep)
    ensures Parse(Join(parts, sep), sep) == parts
       <==> parts == [] || (parts[0] != "" && parts[|parts| - 1] != "")
  {
    var s := Join(parts, sep);
    assert Split("", sep) == [""] && Join([""], sep) == "" && Join([], sep) == "";
    hide Split, Join, TrimChar;
    var t := TrimChar(s, sep);
    if parts != [] && parts[0] != "" && parts[|parts| - 1] != "" {
      var last := parts[|parts| - 1];
      assert parts[0][0] in parts[0] && last[|last| - 1] in last;
      JoinEnds(parts, sep);
      assert t == s;
      SplitJoin(parts, sep);
    } else if s != "" && t != "" {
      SplitEnds(t, sep);
    }
  }

  /** A non-blank stored text reads back with no blank entry at either end. */
  lemma ParseEnds(s: string, sep: char)
    requires exists c :: c in s && c != sep
    ensures var parts := Parse(s, sep); |parts| > 0 && parts[0] != "" && parts[|parts| - 1] != ""
  {
    hide Split, TrimChar;
    var c :| c in s && c != sep;
    var t := TrimChar(s, sep);
    assert t != "";
    SplitEnds(t, sep);
    assert Parse(s, sep) == Split(t, sep);
  }
}
