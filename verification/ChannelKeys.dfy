/**
 How a channel's key text is read (model/channel.go, GetKeys, and the count in Update): a text that opens
 with a bracket is tried as a JSON array first, and is otherwise one key a line. What the JSON library
 makes of a text is a parameter.
 */
module ChannelKeys {
  import opened Options
  import opened Text

  /** The elements of a text that is a JSON array, each as its own piece of the text. */
  type JsonReading = string -> Option<seq<string>>

  predicate Bracketed(text: string) {
    var t := TrimSpace(text);
    t != "" && t[0] == '['
  }

  /** The array a key text is read as, if it is. */
  function JsonKeys(json: JsonReading, text: string): Option<seq<string>> {
    if Bracketed(text) then json(TrimSpace(text)) else None
  }

  /** Channel.GetKeys. */
  function GetKeys(json: JsonReading, text: string): seq<string> {
    match JsonKeys(json, text)
    case Some(keys) => keys
    case None => Parse(text, NEWLINE)
  }

  /** The number of keys Channel.Update records: an empty array is counted as a line of text. */
  function CountKeys(json: JsonReading, text: string): (n: nat)
    ensures n >= |GetKeys(json, text)|
    ensures GetKeys(json, text) != [] ==> n == |GetKeys(json, text)|
  {
    var keys := JsonKeys(json, text);
    if keys.Some? && |keys.value| > 0 then |keys.value| else |Parse(text, NEWLINE)|
  }

  /** What a channel update leaves stored: an empty text is a zero field and is not written. */
  function Saved(stored: string, key: string): string {
    if key != "" then key else stored
  }

  function Total(keys: seq<string>): nat {
    if |keys| == 0 then 0 else |keys[0]| + Total(keys[1..])
  }

  /** What is assumed of the library: an array's elements are not empty, and they, the commas between
      them and the brackets are all in the text. */
  ghost predicate ReadsArrays(json: JsonReading) {
    forall text :: json(text).Some? ==>
      var keys := json(text).value;
      Total(keys) + |keys| < |text| && forall i :: 0 <= i < |keys| ==> keys[i] != ""
  }

  ghost predicate SolidEnds(keys: seq<string>) {
    keys != [] && keys[0] != "" && keys[|keys| - 1] != ""
  }

  /** Keys that can be kept one a line: there are some, each is a line, none at either end is blank, and
      together they are not taken for a JSON array. */
  ghost predicate Storable(json: JsonReading, keys: seq<string>) {
    SolidEnds(keys) && Free(keys, NEWLINE) && JsonKeys(json, Join(keys, NEWLINE)).None?
  }

  lemma {:induction false} JoinLength(keys: seq<string>)
    ensures |Join(keys, NEWLINE)| <= Total(keys) + |keys|
  {
    if |keys| > 0 { JoinLength(keys[1..]); }
  }

  lemma {:induction false} TrimLeftShortens(s: string, cut: char -> bool)
    ensures |Trim(s, cut)| <= |s|
  {
  }

  /** A list written one a line reads back as itself exactly if it is storable, unless nothing is written. */
  lemma WrittenReadsBack(json: JsonReading, keys: seq<string>)
    requires ReadsArrays(json) && Join(keys, NEWLINE) != ""
    ensures GetKeys(json, Join(keys, NEWLINE)) == keys <==> Storable(json, keys)
  {
    hide Trim, Parse, Join, Total;
    var text := Join(keys, NEWLINE);
    assert keys != [] by { EmptyJoin(NEWLINE); }
    if JsonKeys(json, text).Some? {
      JoinLength(keys);
      TrimLeftShortens(text, IsSpace);
    } else if Free(keys, NEWLINE) {
      ParseJoin(keys, NEWLINE);
    }
  }

  /** The single key "[1]" is written as a JSON array and comes back as its element. */
  lemma BracketKeyIsReread(json: JsonReading)
    requires json("[1]") == Some(["1"])
    ensures GetKeys(json, Join(["[1]"], NEWLINE)) == ["1"] && !Storable(json, ["[1]"])
  {
    hide Parse, TrimSpace;
    TrimsNothing("[1]");
  }

  lemma TrimSkips(c: char, s: string)
    requires IsSpace(c)
    ensures TrimSpace([c] + s) == TrimSpace(s)
  {
    hide IsSpace, TrimRight;
    assert ([c] + s)[1..] == s;
  }

  /** White space in front of an array does not matter to how it is read. */
  lemma SpaceInFront(json: JsonReading, c: char, text: string)
    requires IsSpace(c)
    ensures JsonKeys(json, [c] + text) == JsonKeys(json, text)
    ensures JsonKeys(json, text).Some? ==> GetKeys(json, [c] + text) == GetKeys(json, text)
  {
    hide IsSpace, Parse, Trim, TrimSpace;
    TrimSkips(c, text);
  }

  lemma TrimsNothing(s: string)
    requires s != "" && !IsSpace(s[0]) && !IsSpace(s[|s| - 1])
    ensures TrimSpace(s) == s
  {
  }

  /** An empty array holds no key, yet the channel's update counts its text as one. */
  lemma EmptyArrayCountsOne(json: JsonReading)
    requires json("[]") == Some([])
    ensures GetKeys(json, "[]") == [] && CountKeys(json, "[]") == 1
  {
    hide Parse, TrimSpace;
    TrimsNothing("[]");
    OneLine("[]");
  }

  lemma OneLine(a: string)
    requires a != "" && NEWLINE !in a
    ensures Join([a], NEWLINE) == a && Parse(a, NEWLINE) == [a]
  {
    hide Parse;
    ParseJoin([a], NEWLINE);
  }

  lemma EmptyJoin(sep: char)
    ensures Join([], sep) == "" && Join([""], sep) == ""
  {
  }

  /** Nothing is written exactly for no key or a single blank one. */
  lemma NothingWritten(keys: seq<string>)
    ensures Join(keys, NEWLINE) == "" <==> keys == [] || keys == [""]
  {
  }

  /** What is read never has a blank key at an end, but for a text of nothing but newlines. */
  lemma KeysAreSolid(json: JsonReading, text: string)
    requires ReadsArrays(json)
    ensures var keys := GetKeys(json, text); keys == [] || keys == [""] || SolidEnds(keys)
  {
    hide Parse, TrimSpace, TrimChar, Bracketed;
    if JsonKeys(json, text).None? && text != "" {
      if exists c :: c in text && c != NEWLINE {
        ParseEnds(text, NEWLINE);
      } else {
        OnlyNewlines(text);
      }
    } else {
      NoText();
    }
  }

  lemma NoText()
    ensures Parse("", NEWLINE) == [] && !Bracketed("")
  {
  }

  lemma OnlyNewlines(text: string)
    requires text != "" && !exists c :: c in text && c != NEWLINE
    ensures Parse(text, NEWLINE) == [""]
  {
    assert TrimChar(text, NEWLINE) == "";
  }

  // ---------------------------------------------------------------- blank keys at the ends are lost

  lemma TrimDropsFirst(s: string, sep: char)
    requires exists c :: c in s && c != sep
    ensures TrimChar([sep] + s, sep) == TrimChar(s, sep)
  {
    assert ([sep] + s)[1..] == s;
  }

  lemma {:induction false} TrimLeftKeepsLast(s: string, c: char, cut: char -> bool)
    requires exists d :: d in s && !cut(d)
    ensures TrimLeft(s + [c], cut) == TrimLeft(s, cut) + [c]
  {
    if cut(s[0]) {
      assert (s + [c])[1..] == s[1..] + [c];
      var d :| d in s && !cut(d);
      assert d in s[1..];
      TrimLeftKeepsLast(s[1..], c, cut);
    }
  }

  lemma TrimDropsLast(s: string, sep: char)
    requires exists c :: c in s && c != sep
    ensures TrimChar(s + [sep], sep) == TrimChar(s, sep)
  {
    TrimIgnoresLast(s, sep, c => c == sep);
  }

  lemma TrimIgnoresLast(s: string, c: char, cut: char -> bool)
    requires cut(c) && exists d :: d in s && !cut(d)
    ensures Trim(s + [c], cut) == Trim(s, cut)
  {
    TrimLeftKeepsLast(s, c, cut);
    var left := TrimLeft(s, cut);
    assert (left + [c])[..|left|] == left;
  }

  lemma {:induction false} JoinSnoc(parts: seq<string>, last: string, sep: char)
    requires |parts| > 0
    ensures Join(parts + [last], sep) == Join(parts, sep) + [sep] + last
  {
    if |parts| == 1 {
      assert (parts + [last])[1..] == [last];
    } else {
      JoinSnoc(parts[1..], last, sep);
      assert (parts + [last])[1..] == parts[1..] + [last];
    }
  }

  lemma {:induction false} JoinHas(parts: seq<string>, i: nat, c: char, sep: char)
    requires i < |parts| && c in parts[i]
    ensures c in Join(parts, sep)
  {
    if i > 0 { JoinHas(parts[1..], i - 1, c, sep); }
  }

  lemma SomethingWritten(parts: seq<string>)
    requires Free(parts, NEWLINE) && exists i :: 0 <= i < |parts| && parts[i] != ""
    ensures exists c :: c in Join(parts, NEWLINE) && c != NEWLINE
  {
    var i :| 0 <= i < |parts| && parts[i] != "";
    JoinHas(parts, i, parts[i][0], NEWLINE);
    assert parts[i][0] in parts[i];
  }

  lemma JoinBlankFirst(parts: seq<string>)
    requires |parts| > 1 && parts[0] == ""
    ensures Join(parts, NEWLINE) == [NEWLINE] + Join(parts[1..], NEWLINE)
  {
  }

  lemma ReadWithoutFirst(parts: seq<string>)
    requires |parts| > 1 && parts[0] == "" && Free(parts, NEWLINE) && exists i :: 1 <= i < |parts| && parts[i] != ""
    ensures Parse(Join(parts, NEWLINE), NEWLINE) == Parse(Join(parts[1..], NEWLINE), NEWLINE)
  {
    hide Split, TrimChar, Join;
    var rest := parts[1..];
    var i :| 1 <= i < |parts| && parts[i] != "";
    assert rest[i - 1] == parts[i];
    SomethingWritten(rest);
    TrimDropsFirst(Join(rest, NEWLINE), NEWLINE);
    JoinBlankFirst(parts);
  }

  lemma JoinBlankLast(parts: seq<string>)
    requires |parts| > 1 && parts[|parts| - 1] == ""
    ensures Join(parts, NEWLINE) == Join(parts[..|parts| - 1], NEWLINE) + [NEWLINE]
  {
    hide Join;
    var rest := parts[..|parts| - 1];
    JoinSnoc(rest, "", NEWLINE);
    assert parts == rest + [""];
  }

  lemma ParseDropsLast(s: string)
    requires exists c :: c in s && c != NEWLINE
    ensures Parse(s + [NEWLINE], NEWLINE) == Parse(s, NEWLINE)
  {
    hide Split, TrimChar;
    TrimDropsLast(s, NEWLINE);
  }

  lemma ReadWithoutLast(parts: seq<string>)
    requires |parts| > 1 && parts[|parts| - 1] == "" && Free(parts, NEWLINE)
    requires exists i :: 0 <= i < |parts| - 1 && parts[i] != ""
    ensures Parse(Join(parts, NEWLINE), NEWLINE) == Parse(Join(parts[..|parts| - 1], NEWLINE), NEWLINE)
  {
    hide Parse, Join;
    var rest := parts[..|parts| - 1];
    var i :| 0 <= i < |parts| - 1 && parts[i] != "";
    assert rest[i] == parts[i];
    SomethingWritten(rest);
    ParseDropsLast(Join(rest, NEWLINE));
    JoinBlankLast(parts);
  }

  /** A list of lines, not all blank, reads back as a part of itself, shorter where an end is blank. */
  lemma {:induction false} ReadLength(parts: seq<string>)
    requires Free(parts, NEWLINE) && exists i :: 0 <= i < |parts| && parts[i] != ""
    ensures var back := Parse(Join(parts, NEWLINE), NEWLINE);
            && |back| <= |parts| && (!SolidEnds(parts) ==> |back| < |parts|)
            && SolidEnds(back) && forall i :: 0 <= i < |back| ==> back[i] in parts
    decreases |parts|
  {
    hide Parse, Join;
    var i :| 0 <= i < |parts| && parts[i] != "";
    if parts[0] == "" {
      assert parts[1..][i - 1] == parts[i];
      ReadWithoutFirst(parts);
      ReadLength(parts[1..]);
    } else if parts[|parts| - 1] == "" {
      assert parts[..|parts| - 1][0] == parts[0];
      ReadWithoutLast(parts);
      ReadLength(parts[..|parts| - 1]);
    } else {
      ParseJoin(parts, NEWLINE);
    }
  }

  // ---------------------------------------------------------------- texts that open no bracket

  /** The first character that is not white space is a bracket. */
  predicate Opens(s: string) {
    s != "" && (s[0] == '[' || (IsSpace(s[0]) && Opens(s[1..])))
  }

  lemma {:induction false} OpensIsLeft(s: string)
    ensures Opens(s) <==> var left := TrimLeft(s, IsSpace); left != "" && left[0] == '['
  {
    if s != "" && IsSpace(s[0]) { OpensIsLeft(s[1..]); }
  }

  lemma BracketedOpens(s: string)
    ensures Bracketed(s) <==> Opens(s)
  {
    OpensIsLeft(s);
    var left := TrimLeft(s, IsSpace);
    var t := TrimRight(left, IsSpace);
    assert TrimSpace(s) == t;
    assert left != "" ==> t != "" && t[0] == left[0];
  }

  lemma {:induction false} OpensEither(a: string, b: string)
    requires Opens(a + b)
    ensures Opens(a) || Opens(b)
  {
    if a == "" {
      assert a + b == b;
    } else if a[0] != '[' {
      assert (a + b)[1..] == a[1..] + b;
      OpensEither(a[1..], b);
    }
  }

  /** Lines that open no bracket make no text that does. */
  lemma {:induction false} NoBracketJoined(parts: seq<string>)
    requires forall i :: 0 <= i < |parts| ==> !Opens(parts[i])
    ensures !Opens(Join(parts, NEWLINE))
  {
    if |parts| > 1 {
      var rest := Join(parts[1..], NEWLINE);
      NoBracketJoined(parts[1..]);
      assert ([NEWLINE] + rest)[1..] == rest;
      if Opens(Join(parts, NEWLINE)) {
        assert Join(parts, NEWLINE) == parts[0] + ([NEWLINE] + rest);
        OpensEither(parts[0], [NEWLINE] + rest);
      }
    }
  }

  /** Keys that each are a line and open no bracket. */
  ghost predicate Plain(keys: seq<string>) {
    Free(keys, NEWLINE) && forall i :: 0 <= i < |keys| ==> !Bracketed(keys[i])
  }

  /** For plain keys only blank ends are in the way. */
  lemma PlainStorable(json: JsonReading, keys: seq<string>)
    requires Plain(keys)
    ensures JsonKeys(json, Join(keys, NEWLINE)).None?
    ensures Storable(json, keys) <==> SolidEnds(keys)
  {
    hide Bracketed, Join;
    forall i | 0 <= i < |keys| ensures !Opens(keys[i]) { BracketedOpens(keys[i]); }
    NoBracketJoined(keys);
    BracketedOpens(Join(keys, NEWLINE));
  }
}
