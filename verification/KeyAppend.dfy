/**
 Appending keys to a stored multi-key list, the append branch of the channel update
 (controller/channel.go). Tokens are bound to keys by index, so old keys must keep theirs.
 */
module KeyAppend {
  import opened ChannelKeys
  import opened Options
  import opened Text
  import opened TextLists

  // ---------------------------------------------------------------- reference semantics

  /** The new keys an append adds: trimmed, not blank, not there yet. */
  ghost function Added(existing: seq<string>, newKeys: seq<string>): seq<string> {
    Unseen(Trimmed(newKeys), SetOf(Trimmed(existing)))
  }

  /** The stored keys as the append branch reads them: a text that opens with a bracket but is not a JSON
      array has none, although GetKeys would read its lines. */
  function Existing(json: JsonReading, stored: string): seq<string> {
    if !Bracketed(stored) then Split(TrimChar(stored, NEWLINE), NEWLINE)
    else match json(TrimSpace(stored))
      case Some(keys) => keys
      case None => []
  }

  predicate Unread(json: JsonReading, stored: string) {
    Bracketed(stored) && json(TrimSpace(stored)).None?
  }

  /** The new key text. */
  ghost function Appended(json: JsonReading, stored: string, newKeys: seq<string>): string {
    Join(Existing(json, stored) + Added(Existing(json, stored), newKeys), NEWLINE)
  }

  /** The key list after the channel is saved. */
  ghost function KeysAfter(json: JsonReading, stored: string, newKeys: seq<string>): seq<string> {
    GetKeys(json, Saved(stored, Appended(json, stored, newKeys)))
  }

  // ---------------------------------------------------------------- the operation

  method SplitInput(input: string) returns (newKeys: seq<string>)
    ensures newKeys == Trimmed(Split(input, NEWLINE))
  {
    hide Split, TrimSpace;
    var inputKeys := Split(input, NEWLINE);
    newKeys := [];
    for i := 0 to |inputKeys|
      invariant newKeys == Trimmed(inputKeys[..i])
    {
      TrimmedSnoc(inputKeys, i);
      var key := TrimSpace(inputKeys[i]);
      if key != "" {
        newKeys := newKeys + [key];
      }
    }
    assert inputKeys[..|inputKeys|] == inputKeys;
  }

  method KnownKeys(existingKeys: seq<string>) returns (seen: set<string>)
    ensures seen == SetOf(Trimmed(existingKeys))
  {
    hide TrimSpace;
    seen := {};
    for i := 0 to |existingKeys|
      invariant seen == SetOf(Trimmed(existingKeys[..i]))
    {
      TrimmedSnoc(existingKeys, i);
      var normalized := TrimSpace(existingKeys[i]);
      if normalized == "" {
        continue;
      }
      seen := seen + {normalized};
    }
    assert existingKeys[..|existingKeys|] == existingKeys;
  }

  /** Appends keys that are not there yet, whatever list of new keys the caller has parsed. */
  method AppendKeys(existingKeys: seq<string>, newKeys: seq<string>) returns (key: string)
    ensures key == Join(existingKeys + Added(existingKeys, newKeys), NEWLINE)
  {
    var seen := KnownKeys(existingKeys);
    ghost var known := seen;
    assert Unseen(Trimmed([]), known) == [];
    hide TrimSpace, Join, Unseen, Trimmed, SetOf;
    var dedupedNewKeys: seq<string> := [];
    assert newKeys[..0] == [];
    for i := 0 to |newKeys|
      invariant dedupedNewKeys == Unseen(Trimmed(newKeys[..i]), known)
      invariant forall k :: k in seen <==> k in known || k in dedupedNewKeys
    {
      TrimmedSnoc(newKeys, i);
      var normalized := TrimSpace(newKeys[i]);
      if normalized == "" {
        continue;
      }
      UnseenSnoc(Trimmed(newKeys[..i]), normalized, known);
      if normalized in seen {
        continue;
      }
      seen := seen + {normalized};
      dedupedNewKeys := dedupedNewKeys + [normalized];
    }
    assert newKeys[..|newKeys|] == newKeys;
    var allKeys := existingKeys + dedupedNewKeys;
    key := Join(allKeys, NEWLINE);
  }

  /** The keys entered. A Vertex AI channel, given by how its arrays are read, takes an array of keys or a
      single key that may span lines; None is an array that cannot be read. */
  method EnteredKeys(vertex: Option<JsonReading>, input: string) returns (newKeys: Option<seq<string>>)
    ensures vertex.None? ==> newKeys == Some(Trimmed(Split(input, NEWLINE)))
    ensures vertex.Some? ==> newKeys == if Bracketed(input) then vertex.value(input) else Some([input])
  {
    hide Bracketed, Split, Trimmed;
    if vertex.Some? {
      if Bracketed(input) {
        return vertex.value(input);
      }
      return Some([input]);
    }
    var lines := SplitInput(input);
    return Some(lines);
  }

  /** The append branch: the text to save, or None for an error. Without stored keys the input stays. */
  method Append(json: JsonReading, stored: string, vertex: Option<JsonReading>, input: string)
      returns (key: Option<string>)
    ensures stored == "" ==> key == Some(input)
    ensures stored != "" && vertex.None? ==> key == Some(Appended(json, stored, Split(input, NEWLINE)))
    ensures stored != "" && vertex.Some? ==>
              if !Bracketed(input) then key == Some(Appended(json, stored, [input]))
              else if vertex.value(input).None? then key == None
              else key == Some(Appended(json, stored, vertex.value(input).value))
  {
    hide Split, TrimChar, TrimSpace, Bracketed, Join, Trimmed, Unseen;
    if stored == "" {
      return Some(input);
    }
    var existingKeys := Existing(json, stored);
    var newKeys := EnteredKeys(vertex, input);
    if newKeys.None? {
      return None;
    }
    var text := AppendKeys(existingKeys, newKeys.value);
    TrimmedIsClean(Split(input, NEWLINE));
    CleanIsTrimmed(Trimmed(Split(input, NEWLINE)));
    return Some(text);
  }

  // ---------------------------------------------------------------- what is added

  /** Main result: exactly the non-blank new keys that trimming does not find in the old list are added,
      each once and trimmed, in the order they were entered. */
  lemma AddsExactlyTheNew(existing: seq<string>, newKeys: seq<string>, k: string)
    ensures k in Added(existing, newKeys)
       <==> k != "" && (exists i :: 0 <= i < |newKeys| && TrimSpace(newKeys[i]) == k)
            && forall i :: 0 <= i < |existing| ==> TrimSpace(existing[i]) != k
    ensures Distinct(Added(existing, newKeys)) && Clean(Added(existing, newKeys))
    ensures k in Added(existing, newKeys) ==> k !in existing
    ensures InOrder(Added(existing, newKeys), EachTrimmed(newKeys))
  {
    hide TrimSpace, Trimmed, Unseen;
    CleanedInOrder(newKeys, SetOf(Trimmed(existing)));
    UnseenIsAll(Trimmed(newKeys), SetOf(Trimmed(existing)), k);
    TrimmedIsAll(newKeys, k);
    TrimmedIsAll(existing, k);
    UnseenIsDistinct(Trimmed(newKeys), SetOf(Trimmed(existing)));
    TrimmedIsClean(newKeys);
    UnseenIsClean(Trimmed(newKeys), SetOf(Trimmed(existing)));
    if k in Added(existing, newKeys) {
      assert TrimSpace(k) == k;
    }
  }

  // ---------------------------------------------------------------- old keys keep their index

  lemma PushConcat(c: char, x: seq<string>, y: seq<string>, sep: char)
    requires |x| > 0
    ensures Push(c, x + y, sep) == Push(c, x, sep) + y
  {
  }

  lemma {:induction false} SplitConcat(a: string, b: string, sep: char)
    ensures Split(a + [sep] + b, sep) == Split(a, sep) + Split(b, sep)
  {
    var whole := a + [sep] + b;
    if a == "" {
      assert whole[1..] == b;
    } else {
      SplitConcat(a[1..], b, sep);
      assert whole[1..] == a[1..] + [sep] + b && whole[0] == a[0];
      hide Push;
      PushConcat(a[0], Split(a[1..], sep), Split(b, sep), sep);
    }
  }

  lemma {:induction false} JoinConcat(a: seq<string>, b: seq<string>, sep: char)
    requires a != [] && b != []
    ensures Join(a + b, sep) == Join(a, sep) + [sep] + Join(b, sep)
  {
    if |a| == 1 {
      assert (a + b)[1..] == b;
    } else {
      JoinConcat(a[1..], b, sep);
      assert (a + b)[1..] == a[1..] + b;
      assert a[0] + [sep] + (Join(a[1..], sep) + [sep] + Join(b, sep)) == a[0] + [sep] + Join(a[1..], sep) + [sep] + Join(b, sep);
    }
  }

  /** Fresh keys are not blank and have no white space at an end, so no newline either. */
  lemma AddedEnds(existing: seq<string>, newKeys: seq<string>, i: nat)
    requires i < |Added(existing, newKeys)|
    ensures var k := Added(existing, newKeys)[i]; k != "" && k[|k| - 1] != NEWLINE && k[0] != NEWLINE
  {
    hide TrimSpace, Added;
    var k := Added(existing, newKeys)[i];
    AddsExactlyTheNew(existing, newKeys, k);
    assert IsSpace(NEWLINE) && TrimSpace(k) == k;
  }

  ghost predicate StartsWith(list: seq<string>, front: seq<string>) {
    |front| <= |list| && forall i :: 0 <= i < |front| ==> list[i] == front[i]
  }

  /** The append branch reads the list the rest of the gateway reads, exactly unless the stored text opens a
      bracket and is no JSON array: then it reads none of the keys there are. */
  lemma ExistingIsRead(json: JsonReading, stored: string)
    requires stored != ""
    ensures Existing(json, stored) == GetKeys(json, stored) <==> !Unread(json, stored)
    ensures Unread(json, stored) ==> Existing(json, stored) == [] && |GetKeys(json, stored)| > 0
  {
    hide Bracketed, TrimSpace, Split, TrimChar;
  }

  lemma AddedIsSolid(existing: seq<string>, newKeys: seq<string>)
    ensures var added := Added(existing, newKeys);
            added == [] || (SolidEnds(added) && added[|added| - 1][|added[|added| - 1]| - 1] != NEWLINE
                            && added[0][0] != NEWLINE)
  {
    hide TrimSpace, Added;
    var added := Added(existing, newKeys);
    if added != [] {
      AddedEnds(existing, newKeys, 0);
      AddedEnds(existing, newKeys, |added| - 1);
    }
  }

  /** Main result: after any append, even of keys that span lines, every old key is read back at its old
      index exactly if nothing was written; or if the old keys are lines, not a single blank one; or, when
      the append branch could not read them, if the entered keys repeat them first. This is for a new text
      that is not itself taken for a JSON array; such a text reads back as that array. */
  lemma OldKeysKeepTheirIndex(json: JsonReading, stored: string, newKeys: seq<string>)
    requires ReadsArrays(json) && stored != ""
    ensures var before, text := GetKeys(json, stored), Appended(json, stored, newKeys);
            && (text == "" || JsonKeys(json, text).None? ==>
                  (StartsWith(KeysAfter(json, stored, newKeys), before) <==>
                     || text == ""
                     || (if Unread(json, stored) then StartsWith(Split(text, NEWLINE), before)
                         else Free(before, NEWLINE) && before != [""])))
            && (text != "" && JsonKeys(json, text).Some? ==>
                  Some(KeysAfter(json, stored, newKeys)) == JsonKeys(json, text))
  {
    hide Split, Join, Parse, Added, Bracketed, JsonKeys, Existing, Unread, TrimChar;
    var before, existing, text := GetKeys(json, stored), Existing(json, stored), Appended(json, stored, newKeys);
    var added := Added(existing, newKeys);
    ExistingIsRead(json, stored);
    if text != "" && JsonKeys(json, text).None? {
      if Unread(json, stored) {
        assert existing + added == added;
        AddedReads(existing, newKeys);
      } else {
        KeysAreSolid(json, stored);
        OldKeysRead(before, newKeys);
      }
    }
  }

  /** Entered keys alone are read as the lines they make. */
  lemma AddedReads(existing: seq<string>, newKeys: seq<string>)
    requires Join(Added(existing, newKeys), NEWLINE) != ""
    ensures var text := Join(Added(existing, newKeys), NEWLINE); Parse(text, NEWLINE) == Split(text, NEWLINE)
  {
    hide Split, TrimChar, Join, Added;
    var added := Added(existing, newKeys);
    NothingWritten(added);
    AddedIsSolid(existing, newKeys);
    JoinEnds(added, NEWLINE);
  }

  lemma OldKeysRead(before: seq<string>, newKeys: seq<string>)
    requires before == [] || before == [""] || SolidEnds(before)
    requires Join(before + Added(before, newKeys), NEWLINE) != ""
    ensures StartsWith(Parse(Join(before + Added(before, newKeys), NEWLINE), NEWLINE), before)
       <==> Free(before, NEWLINE) && before != [""]
  {
    hide Split, Join, Parse, Added;
    var added := Added(before, newKeys);
    var text := Join(before + added, NEWLINE);
    AddedIsSolid(before, newKeys);
    if before == [""] {
      NothingWritten(before + added);
      assert before + [] == before;
      WrittenEnds(before, added);
      ParseEnds(text, NEWLINE);
    } else if Free(before, NEWLINE) && before != [] {
      if added == [] {
        assert before + added == before;
        ParseJoin(before, NEWLINE);
      } else {
        AppendedParse(before, added);
      }
    } else if before != [] {
      var i :| 0 <= i < |before| && NEWLINE in before[i];
    }
  }

  lemma WrittenEnds(front: seq<string>, added: seq<string>)
    requires SolidEnds(added) && added[|added| - 1][|added[|added| - 1]| - 1] != NEWLINE
    ensures exists c :: c in Join(front + added, NEWLINE) && c != NEWLINE
  {
    hide Join;
    var all := front + added;
    var last := added[|added| - 1];
    assert all[|all| - 1] == last && last[|last| - 1] in last;
    JoinHas(all, |all| - 1, last[|last| - 1], NEWLINE);
  }

  lemma AppendedParse(existing: seq<string>, added: seq<string>)
    requires existing != [] && existing[0] != "" && Free(existing, NEWLINE)
    requires added != [] && added[|added| - 1] != "" && added[|added| - 1][|added[|added| - 1]| - 1] != NEWLINE
    ensures Parse(Join(existing + added, NEWLINE), NEWLINE) == existing + Split(Join(added, NEWLINE), NEWLINE)
  {
    hide Split, Join, TrimChar;
    var all := existing + added;
    var text := Join(all, NEWLINE);
    assert all[0] == existing[0] && all[|all| - 1] == added[|added| - 1];
    assert existing[0][0] in existing[0];
    JoinEnds(all, NEWLINE);
    assert TrimChar(text, NEWLINE) == text;
    JoinConcat(existing, added, NEWLINE);
    SplitConcat(Join(existing, NEWLINE), Join(added, NEWLINE), NEWLINE);
    SplitJoin(existing, NEWLINE);
  }

  /** Main result: the saved list reads back as the old keys followed by the added ones exactly if nothing
      was written, or the append branch could read the old keys and all together can be stored one a line. */
  lemma ReadsBackExactly(json: JsonReading, stored: string, newKeys: seq<string>)
    requires ReadsArrays(json) && stored != ""
    ensures var before, added := GetKeys(json, stored), Added(Existing(json, stored), newKeys);
            (KeysAfter(json, stored, newKeys) == before + added
             <==> Appended(json, stored, newKeys) == "" || (!Unread(json, stored) && Storable(json, before + added)))
  {
    hide Split, Join, Parse, Added, Bracketed, JsonKeys, Existing, Unread, Storable;
    var before, existing, text := GetKeys(json, stored), Existing(json, stored), Appended(json, stored, newKeys);
    var added := Added(existing, newKeys);
    ExistingIsRead(json, stored);
    NothingWritten(existing + added);
    AddedIsSolid(existing, newKeys);
    if text == "" {
      NothingAdded(existing, added);
      assert before + [] == before;
    } else if !Unread(json, stored) {
      WrittenReadsBack(json, existing + added);
    } else {
      assert existing + added == added;
      LostForGood(json, before, added);
    }
  }

  lemma NothingAdded(existing: seq<string>, added: seq<string>)
    requires added == [] || SolidEnds(added)
    requires existing + added == [] || existing + added == [""]
    ensures added == []
  {
    assert added == (existing + added)[|existing|..];
  }

  lemma {:induction false} TotalConcat(a: seq<string>, b: seq<string>)
    ensures Total(a + b) == Total(a) + Total(b)
  {
    if a == [] {
      assert a + b == b;
    } else {
      TotalConcat(a[1..], b);
      assert (a + b)[1..] == a[1..] + b;
    }
  }

  /** The added keys alone never read back as a longer list that ends in them. */
  lemma LostForGood(json: JsonReading, before: seq<string>, added: seq<string>)
    requires ReadsArrays(json) && |before| > 0 && SolidEnds(added) && Join(added, NEWLINE) != ""
    ensures GetKeys(json, Join(added, NEWLINE)) != before + added
  {
    hide Parse, Join, Trim, Total;
    var text, all := Join(added, NEWLINE), before + added;
    if JsonKeys(json, text).Some? {
      JoinLength(added);
      TrimLeftShortens(text, IsSpace);
      TotalConcat(before, added);
    } else if Free(added, NEWLINE) {
      ParseJoin(added, NEWLINE);
    } else {
      var i :| 0 <= i < |added| && NEWLINE in added[i];
      assert all[|before| + i] == added[i];
    }
  }

  lemma TwoLines(a: string, b: string)
    requires a != "" && b != "" && NEWLINE !in a && NEWLINE !in b
    ensures Join([a, b], NEWLINE) == a + [NEWLINE] + b && Parse(a + [NEWLINE] + b, NEWLINE) == [a, b]
  {
    hide Parse;
    assert [a, b][1..] == [b];
    ParseJoin([a, b], NEWLINE);
  }

  lemma OneNewKey(k: string)
    requires k != "" && TrimSpace(k) == k
    ensures Added([], [k]) == [k]
  {
    hide TrimSpace;
    assert [k][..0] == [];
    assert Trimmed([]) == [] && Trimmed([k]) == [k];
    assert SetOf(Trimmed([])) == {};
    assert Unseen([], {}) == [] && Unseen([k], {}) == [k];
  }

  /** A channel with the keys "[a" and "b" loses both when "c" is appended. */
  lemma OldKeysLost(json: JsonReading)
    requires json("[a\nb").None?
    ensures GetKeys(json, "[a\nb") == ["[a", "b"]
    ensures KeysAfter(json, "[a\nb", ["c"]) == ["c"]
  {
    hide Parse, Added, Split, TrimChar, Join, Trim;
    var stored := "[a\nb";
    assert TrimSpace(stored) == stored && TrimSpace("c") == "c";
    assert stored == "[a" + [NEWLINE] + "b";
    TwoLines("[a", "b");
    OneLine("c");
    OneNewKey("c");
    assert [] + ["c"] == ["c"];
  }

  /** Plain input is split on newlines first, so none of its keys spans lines. */
  lemma PlainKeysAreSingleLines(existing: seq<string>, input: string)
    ensures Free(Added(existing, Split(input, NEWLINE)), NEWLINE)
  {
    hide Split, TrimSpace, Added;
    var lines := Split(input, NEWLINE);
    var added := Added(existing, lines);
    forall i | 0 <= i < |added| ensures NEWLINE !in added[i] {
      AddsExactlyTheNew(existing, lines, added[i]);
      var j :| 0 <= j < |lines| && TrimSpace(lines[j]) == added[i];
      TrimSpaceFacts(lines[j]);
    }
  }
}
