/**
 The key table of a multi-key channel: an ordered list of keys stored as text, with sparse per-index
 maps that are renumbered when keys are deleted (controller/channel.go, model/channel.go).
 */
module KeyTable {
  import opened ChannelKeys
  import opened Options
  import opened Text

  const ENABLED := 1
  const AUTO_DISABLED := 3

  /** The stored per-index state of the keys; an index without a status is enabled. */
  datatype Info = Info(
    size: int,
    status: map<int, int>,
    disabledTime: map<int, int>,
    disabledReason: map<int, string>,
    usedCount: map<int, int>,
    maxRequests: map<int, int>)

  /** A key text with its state, and how texts are read as JSON arrays. */
  datatype Table = Table(json: JsonReading, key: string, info: Info) {
    function Keys(): seq<string> {
      GetKeys(json, key)
    }

    /** The recorded size is the number of keys the text holds. */
    predicate Valid() {
      info.size == |Keys()|
    }
  }

  /** What get_key_status shows of one key. */
  datatype Row = Row(key: string, status: int, disabledTime: int, reason: string, usedCount: int, maxRequests: int)

  function Get<T>(m: map<int, T>, i: int, default: T): T {
    if i in m then m[i] else default
  }

  function StatusAt(info: Info, i: int): int {
    Get(info.status, i, ENABLED)
  }

  function RowAt(key: string, info: Info, i: int): Row {
    var status := StatusAt(info, i);
    Row(key, status,
        if status != ENABLED then Get(info.disabledTime, i, 0) else 0,
        if status != ENABLED then Get(info.disabledReason, i, "") else "",
        Get(info.usedCount, i, 0),
        Get(info.maxRequests, i, 0))
  }

  /** What a row says of key i: one without a status is enabled, only a disabled one shows when and why, and
      a counter that is not stored is 0. */
  ghost predicate Shows(row: Row, key: string, info: Info, i: int) {
    && row.key == key
    && row.status == (if i in info.status then info.status[i] else 1)
    && (row.status == 1 ==> row.disabledTime == 0 && row.reason == "")
    && (row.status != 1 ==>
          && row.disabledTime == (if i in info.disabledTime then info.disabledTime[i] else 0)
          && row.reason == (if i in info.disabledReason then info.disabledReason[i] else ""))
    && row.usedCount == (if i in info.usedCount then info.usedCount[i] else 0)
    && row.maxRequests == (if i in info.maxRequests then info.maxRequests[i] else 0)
  }

  lemma RowShows(key: string, info: Info, i: int)
    ensures Shows(RowAt(key, info, i), key, info, i)
  {
  }

  ghost function Rows(keys: seq<string>, info: Info): (rows: seq<Row>)
    ensures |rows| == |keys| && forall i :: 0 <= i < |keys| ==> rows[i] == RowAt(keys[i], info, i)
  {
    seq(|keys|, i requires 0 <= i < |keys| => RowAt(keys[i], info, i))
  }

  ghost function Observed(t: Table): seq<Row> {
    Rows(t.Keys(), t.info)
  }

  // ---------------------------------------------------------------- renumbering

  /** The indices from lo below hi that are not dropped, in order. */
  ghost function Kept(drop: set<int>, lo: nat, hi: nat): (keep: seq<nat>)
    ensures forall j :: 0 <= j < |keep| ==> lo <= keep[j] < hi && keep[j] !in drop
    decreases hi - lo
  {
    if lo >= hi then [] else (if lo in drop then [] else [lo]) + Kept(drop, lo + 1, hi)
  }

  ghost function Select<T>(s: seq<T>, keep: seq<nat>): (r: seq<T>)
    requires forall j :: 0 <= j < |keep| ==> keep[j] < |s|
    ensures |r| == |keep| && forall j :: 0 <= j < |keep| ==> r[j] == s[keep[j]]
  {
    seq(|keep|, j requires 0 <= j < |keep| => s[keep[j]])
  }

  /** A map over old indices, renumbered to new ones. */
  ghost function Gather<T>(m: map<int, T>, keep: seq<nat>): map<int, T> {
    map j: int | 0 <= j < |keep| && keep[j] in m :: m[keep[j]]
  }

  /** The entries that belong to keys that are not enabled. */
  ghost function Disabled<T>(m: map<int, T>, info: Info): map<int, T> {
    map i | i in m && StatusAt(info, i) != ENABLED :: m[i]
  }

  /** The renumbered state delete_key builds: times and reasons of enabled keys are carried along. */
  ghost function AfterDelete(info: Info, keep: seq<nat>): Info {
    Info(|keep|, Gather(Disabled(info.status, info), keep),
         Gather(info.disabledTime, keep), Gather(info.disabledReason, keep),
         Gather(info.usedCount, keep), Gather(info.maxRequests, keep))
  }

  /** The renumbered state delete_disabled_keys builds: times and reasons of enabled keys are left behind. */
  ghost function AfterDeleteDisabled(info: Info, keep: seq<nat>): Info {
    Info(|keep|, Gather(Disabled(info.status, info), keep),
         Gather(Disabled(info.disabledTime, info), keep), Gather(Disabled(info.disabledReason, info), keep),
         Gather(info.usedCount, keep), Gather(info.maxRequests, keep))
  }

  function Below<T>(m: map<int, T>, size: int): map<int, T> {
    map i | i in m && i < size :: m[i]
  }

  /** Channel.Update: an empty key text is a zero field and is not written, so the stored one stays;
      the size is counted afresh and state beyond it is dropped. */
  function Persist(json: JsonReading, stored: string, key: string, info: Info): (t: Table)
    ensures t.Keys() != [] ==> t.Valid()
  {
    var k := Saved(stored, key);
    var n := CountKeys(json, k);
    Table(json, k, Info(n, Below(info.status, n), Below(info.disabledTime, n), Below(info.disabledReason, n),
                        Below(info.usedCount, n), Below(info.maxRequests, n)))
  }

  predicate Bound(bindings: map<int, int>, i: int) {
    Get(bindings, i, 0) > 0
  }

  /** What deleting one key makes of the table; None where the request is refused. */
  ghost function DeleteOne(t: Table, index: int, bindings: map<int, int>): Option<Table> {
    var keys := t.Keys();
    if !(0 <= index < t.info.size) || Bound(bindings, index) then None
    else
      var keep := Kept({index}, 0, |keys|);
      if keep == [] then None
      else Some(Persist(t.json, t.key, Join(Select(keys, keep), NEWLINE), AfterDelete(t.info, keep)))
  }

  /** The indices delete_disabled_keys removes: auto-disabled and bound to no token. */
  ghost function DoomedAmong(n: nat, info: Info, bindings: map<int, int>): set<int> {
    set i: int | 0 <= i < n && StatusAt(info, i) == AUTO_DISABLED && !Bound(bindings, i)
  }

  /** How many of them it passes over because a token is bound to them. */
  ghost function Spared(n: nat, info: Info, bindings: map<int, int>): nat {
    if n == 0 then 0
    else
      var i := n - 1;
      Spared(i, info, bindings) +
      if i in info.status && info.status[i] == 3 && i in bindings && bindings[i] > 0 then 1 else 0
  }

  ghost function Doomed(t: Table, bindings: map<int, int>): set<int> {
    DoomedAmong(|t.Keys()|, t.info, bindings)
  }

  ghost function DeleteDoomed(t: Table, bindings: map<int, int>): Table {
    var keep := Kept(Doomed(t, bindings), 0, |t.Keys()|);
    if |keep| == |t.Keys()| then t
    else Persist(t.json, t.key, Join(Select(t.Keys(), keep), NEWLINE), AfterDeleteDisabled(t.info, keep))
  }

  // ---------------------------------------------------------------- the operations

  lemma {:induction false} KeptSnoc(drop: set<int>, lo: nat, hi: nat)
    requires lo <= hi
    ensures Kept(drop, lo, hi + 1) == Kept(drop, lo, hi) + (if hi in drop then [] else [hi])
    decreases hi - lo
  {
    if lo < hi {
      KeptSnoc(drop, lo + 1, hi);
    } else {
      assert Kept(drop, hi + 1, hi + 1) == [];
    }
  }

  lemma GatherSnoc<T>(m: map<int, T>, keep: seq<nat>, i: nat)
    ensures Gather(m, keep + [i]) == if i in m then Gather(m, keep)[|keep| := m[i]] else Gather(m, keep)
  {
  }

  /** Copies one entry to its new index, if there is one. */
  method Carry<T>(m: map<int, T>, i: nat, into: map<int, T>, newIndex: nat, ghost keep: seq<nat>) returns (r: map<int, T>)
    requires newIndex == |keep| && into == Gather(m, keep)
    ensures r == Gather(m, keep + [i])
  {
    GatherSnoc(m, keep, i);
    r := if i in m then into[newIndex := m[i]] else into;
  }

  method CarryDisabled<T>(m: map<int, T>, i: nat, info: Info, into: map<int, T>, newIndex: nat, ghost keep: seq<nat>)
      returns (r: map<int, T>)
    requires newIndex == |keep| && into == Gather(Disabled(m, info), keep)
    ensures r == Gather(Disabled(m, info), keep + [i])
  {
    GatherSnoc(Disabled(m, info), keep, i);
    r := if i in m && StatusAt(info, i) != ENABLED then into[newIndex := m[i]] else into;
  }

  /** delete_key: what is kept of key i moves to the next new index. */
  method CarryOver(info: Info, i: nat, built: Info, ghost keep: seq<nat>) returns (r: Info)
    requires built == AfterDelete(info, keep)
    ensures r == AfterDelete(info, keep + [i])
  {
    var newIndex := built.size;
    var status := CarryDisabled(info.status, i, info, built.status, newIndex, keep);
    var time := Carry(info.disabledTime, i, built.disabledTime, newIndex, keep);
    var reason := Carry(info.disabledReason, i, built.disabledReason, newIndex, keep);
    var used := Carry(info.usedCount, i, built.usedCount, newIndex, keep);
    var limit := Carry(info.maxRequests, i, built.maxRequests, newIndex, keep);
    r := Info(newIndex + 1, status, time, reason, used, limit);
  }

  /** delete_disabled_keys: the same, but an enabled key leaves its disabled time and reason behind. */
  method CarryOverDisabled(info: Info, i: nat, built: Info, ghost keep: seq<nat>) returns (r: Info)
    requires built == AfterDeleteDisabled(info, keep)
    ensures r == AfterDeleteDisabled(info, keep + [i])
  {
    var newIndex := built.size;
    var status := CarryDisabled(info.status, i, info, built.status, newIndex, keep);
    var time := CarryDisabled(info.disabledTime, i, info, built.disabledTime, newIndex, keep);
    var reason := CarryDisabled(info.disabledReason, i, info, built.disabledReason, newIndex, keep);
    var used := Carry(info.usedCount, i, built.usedCount, newIndex, keep);
    var limit := Carry(info.maxRequests, i, built.maxRequests, newIndex, keep);
    r := Info(newIndex + 1, status, time, reason, used, limit);
  }

  lemma SelectSnoc<T>(s: seq<T>, keep: seq<nat>, i: nat)
    requires i < |s| && forall j :: 0 <= j < |keep| ==> keep[j] < |s|
    ensures Select(s, keep + [i]) == Select(s, keep) + [s[i]]
  {
  }

  const NO_INFO := Info(0, map[], map[], map[], map[], map[])

  lemma NothingKept(info: Info)
    ensures AfterDelete(info, []) == NO_INFO && AfterDeleteDisabled(info, []) == NO_INFO
  {
  }

  class Channel {
    const json: JsonReading
    var key: string
    var info: Info

    constructor (json: JsonReading, key: string, info: Info)
      ensures View() == Table(json, key, info)
    {
      this.json, this.key, this.info := json, key, info;
    }

    ghost function View(): Table
      reads this
    {
      Table(json, key, info)
    }

    method Update(newKey: string, newInfo: Info)
      modifies this
      ensures View() == Persist(json, old(key), newKey, newInfo)
    {
      key := Saved(key, newKey);
      var n := CountKeys(json, key);
      info := Info(n, Below(newInfo.status, n), Below(newInfo.disabledTime, n), Below(newInfo.disabledReason, n),
                   Below(newInfo.usedCount, n), Below(newInfo.maxRequests, n));
    }

    method GetKeyStatus() returns (rows: seq<Row>)
      ensures rows == Observed(View())
      ensures |rows| == |GetKeys(json, key)|
      ensures forall i :: 0 <= i < |rows| ==> Shows(rows[i], GetKeys(json, key)[i], info, i)
    {
      hide GetKeys, RowAt;
      var keys := GetKeys(json, key);
      rows := [];
      for i := 0 to |keys|
        invariant |rows| == i && forall j :: 0 <= j < i ==> rows[j] == RowAt(keys[j], info, j)
      {
        rows := rows + [RowAt(keys[i], info, i)];
      }
      forall i | 0 <= i < |keys| ensures Shows(rows[i], keys[i], info, i) { RowShows(keys[i], info, i); }
    }

    method DeleteKey(index: int, bindings: map<int, int>) returns (ok: bool)
      modifies this
      ensures var r := DeleteOne(old(View()), index, bindings);
              if ok then r == Some(View()) else r == None && View() == old(View())
      ensures index in bindings && bindings[index] > 0 ==> !ok
      ensures index < 0 || index >= old(info.size) ==> !ok
    {
      if index < 0 || index >= info.size {
        return false;
      }
      if Bound(bindings, index) {
        return false;
      }
      var remaining, built := Without(GetKeys(json, key), info, index);
      hide GetKeys, Join, AfterDelete, Kept, Persist;
      if |remaining| == 0 {
        assert Kept({index}, 0, |View().Keys()|) == [];
        return false;
      }
      Update(Join(remaining, NEWLINE), built);
      ok := true;
    }

    method DeleteDisabledKeys(bindings: map<int, int>) returns (deletedCount: nat, skippedBoundCount: nat)
      modifies this
      ensures View() == DeleteDoomed(old(View()), bindings)
      ensures deletedCount + |Kept(Doomed(old(View()), bindings), 0, |old(View()).Keys()|)| == |old(View()).Keys()|
      ensures skippedBoundCount == Spared(|old(View()).Keys()|, old(info), bindings)
    {
      hide GetKeys, Join, AfterDeleteDisabled, Kept, Persist, DoomedAmong, Spared;
      var remaining, built;
      remaining, built, deletedCount, skippedBoundCount := WithoutDoomed(GetKeys(json, key), info, bindings);
      if deletedCount == 0 {
        return;
      }
      Update(Join(remaining, NEWLINE), built);
    }
  }

  /** The loop of delete_key over the current keys. */
  method Without(keys: seq<string>, info: Info, index: int) returns (remaining: seq<string>, built: Info)
    ensures var keep := Kept({index}, 0, |keys|); remaining == Select(keys, keep) && built == AfterDelete(info, keep)
  {
    remaining, built := [], NO_INFO;
    ghost var keep: seq<nat> := [];
    NothingKept(info);
    assert Kept({index}, 0, 0) == [];
    hide AfterDelete, Kept;
    for i := 0 to |keys|
      invariant keep == Kept({index}, 0, i) && remaining == Select(keys, keep) && built == AfterDelete(info, keep)
    {
      KeptSnoc({index}, 0, i);
      if i == index {
        continue;
      }
      SelectSnoc(keys, keep, i);
      remaining := remaining + [keys[i]];
      built := CarryOver(info, i, built, keep);
      keep := keep + [i];
    }
  }

  /** What the lists kept below an index are one index further. */
  lemma OneIndexMore(n: nat, info: Info, bindings: map<int, int>, i: nat)
    requires i < n
    ensures var doomed := DoomedAmong(n, info, bindings);
            Kept(doomed, 0, i + 1) ==
            Kept(doomed, 0, i) + if StatusAt(info, i) == AUTO_DISABLED && !Bound(bindings, i) then [] else [i]
    ensures Spared(i + 1, info, bindings) ==
            Spared(i, info, bindings) + if StatusAt(info, i) == AUTO_DISABLED && Bound(bindings, i) then 1 else 0
  {
    hide Kept;
    KeptSnoc(DoomedAmong(n, info, bindings), 0, i);
  }

  /** How far delete_disabled_keys has come: the keys below i are kept or counted. */
  ghost predicate Passed(keys: seq<string>, info: Info, bindings: map<int, int>, i: nat, keep: seq<nat>,
                         remaining: seq<string>, built: Info, deletedCount: nat, skippedBoundCount: nat)
  {
    && keep == Kept(DoomedAmong(|keys|, info, bindings), 0, i) && BuiltFrom(keys, info, keep, remaining, built)
    && deletedCount + |keep| == i && skippedBoundCount == Spared(i, info, bindings)
  }

  lemma NothingPassed(keys: seq<string>, info: Info, bindings: map<int, int>)
    ensures Passed(keys, info, bindings, 0, [], [], NO_INFO, 0, 0)
  {
    NothingKept(info);
    assert Kept(DoomedAmong(|keys|, info, bindings), 0, 0) == [];
  }

  lemma AllPassed(keys: seq<string>, info: Info, bindings: map<int, int>, keep: seq<nat>,
                  remaining: seq<string>, built: Info, deletedCount: nat, skippedBoundCount: nat)
    requires Passed(keys, info, bindings, |keys|, keep, remaining, built, deletedCount, skippedBoundCount)
    ensures keep == Kept(DoomedAmong(|keys|, info, bindings), 0, |keys|)
    ensures (forall j :: 0 <= j < |keep| ==> keep[j] < |keys|) && remaining == Select(keys, keep)
    ensures built == AfterDeleteDisabled(info, keep)
    ensures deletedCount + |keep| == |keys| && skippedBoundCount == Spared(|keys|, info, bindings)
  {
  }

  /** A doomed key is passed by, any other is kept. */
  lemma OneMorePassed(keys: seq<string>, info: Info, bindings: map<int, int>, i: nat, keep: seq<nat>,
                      remaining: seq<string>, built: Info, deletedCount: nat, skippedBoundCount: nat)
    requires i < |keys| && Passed(keys, info, bindings, i, keep, remaining, built, deletedCount, skippedBoundCount)
    ensures var doomed, spared := StatusAt(info, i) == AUTO_DISABLED && !Bound(bindings, i),
                                  StatusAt(info, i) == AUTO_DISABLED && Bound(bindings, i);
            && (doomed ==> Passed(keys, info, bindings, i + 1, keep, remaining, built, deletedCount + 1, skippedBoundCount))
            && (!doomed ==>
                  forall more, next :: BuiltFrom(keys, info, keep + [i], more, next) ==>
                    Passed(keys, info, bindings, i + 1, keep + [i], more, next, deletedCount,
                           skippedBoundCount + if spared then 1 else 0))
    ensures BuiltFrom(keys, info, keep, remaining, built)
  {
    hide BuiltFrom, Kept, DoomedAmong, Spared;
    OneIndexMore(|keys|, info, bindings, i);
  }

  /** The loop of delete_disabled_keys over the current keys. */
  method WithoutDoomed(keys: seq<string>, info: Info, bindings: map<int, int>)
      returns (remaining: seq<string>, built: Info, deletedCount: nat, skippedBoundCount: nat)
    ensures var keep := Kept(DoomedAmong(|keys|, info, bindings), 0, |keys|);
            remaining == Select(keys, keep) && built == AfterDeleteDisabled(info, keep) && deletedCount + |keep| == |keys|
    ensures skippedBoundCount == Spared(|keys|, info, bindings)
  {
    hide *;
    remaining, built, deletedCount, skippedBoundCount := [], NO_INFO, 0, 0;
    ghost var keep: seq<nat> := [];
    NothingPassed(keys, info, bindings);
    for i := 0 to |keys|
      invariant Passed(keys, info, bindings, i, keep, remaining, built, deletedCount, skippedBoundCount)
    {
      OneMorePassed(keys, info, bindings, i, keep, remaining, built, deletedCount, skippedBoundCount);
      if StatusAt(info, i) == AUTO_DISABLED {
        if Bound(bindings, i) {
          skippedBoundCount := skippedBoundCount + 1;
        } else {
          deletedCount := deletedCount + 1;
          continue;
        }
      }
      remaining, built := KeepKey(keys, info, i, remaining, built, keep);
      keep := keep + [i];
    }
    AllPassed(keys, info, bindings, keep, remaining, built, deletedCount, skippedBoundCount);
  }

  /** The keys and the state rebuilt from these indices. */
  ghost predicate BuiltFrom(keys: seq<string>, info: Info, keep: seq<nat>, remaining: seq<string>, built: Info) {
    && (forall j :: 0 <= j < |keep| ==> keep[j] < |keys|)
    && remaining == Select(keys, keep) && built == AfterDeleteDisabled(info, keep)
  }

  method KeepKey(keys: seq<string>, info: Info, i: nat, remaining: seq<string>, built: Info, ghost keep: seq<nat>)
      returns (more: seq<string>, next: Info)
    requires i < |keys| && BuiltFrom(keys, info, keep, remaining, built)
    ensures BuiltFrom(keys, info, keep + [i], more, next)
  {
    hide AfterDeleteDisabled;
    SelectSnoc(keys, keep, i);
    more := remaining + [keys[i]];
    next := CarryOverDisabled(info, i, built, keep);
  }

  // ---------------------------------------------------------------- what a deletion leaves

  /** What is kept of a key that moves to index j. Deleting a single key carries the disabled time and reason of an
      enabled key along, deleting all disabled ones does not. */
  lemma CarriedOver(info: Info, keep: seq<nat>, j: nat)
    requires j < |keep|
    ensures var i, one, bulk := keep[j], AfterDelete(info, keep), AfterDeleteDisabled(info, keep);
            var disabled := i in info.status && info.status[i] != 1;
            && (j in one.status <==> disabled) && (j in bulk.status <==> disabled)
            && (j in one.disabledTime <==> i in info.disabledTime)
            && (j in one.disabledReason <==> i in info.disabledReason)
            && (j in bulk.disabledTime <==> disabled && i in info.disabledTime)
            && (j in bulk.disabledReason <==> disabled && i in info.disabledReason)
            && (j in one.usedCount <==> i in info.usedCount) && (j in bulk.usedCount <==> i in info.usedCount)
            && (j in one.maxRequests <==> i in info.maxRequests) && (j in bulk.maxRequests <==> i in info.maxRequests)
            && one.size == bulk.size == |keep|
  {
  }

  /** Neither renumbering changes anything that is shown of a key that stays. */
  lemma RowStays(keys: seq<string>, info: Info, keep: seq<nat>, j: nat)
    requires j < |keep| && forall i :: 0 <= i < |keep| ==> keep[i] < |keys|
    ensures RowAt(keys[keep[j]], AfterDelete(info, keep), j) == RowAt(keys[keep[j]], info, keep[j])
    ensures RowAt(keys[keep[j]], AfterDeleteDisabled(info, keep), j) == RowAt(keys[keep[j]], info, keep[j])
  {
  }

  lemma RowsStay(keys: seq<string>, info: Info, keep: seq<nat>)
    requires forall i :: 0 <= i < |keep| ==> keep[i] < |keys|
    ensures Rows(Select(keys, keep), AfterDelete(info, keep)) == Select(Rows(keys, info), keep)
    ensures Rows(Select(keys, keep), AfterDeleteDisabled(info, keep)) == Select(Rows(keys, info), keep)
  {
    forall j | 0 <= j < |keep| ensures RowAt(keys[keep[j]], AfterDelete(info, keep), j) == RowAt(keys[keep[j]], info, keep[j])
      && RowAt(keys[keep[j]], AfterDeleteDisabled(info, keep), j) == RowAt(keys[keep[j]], info, keep[j]) {
      RowStays(keys, info, keep, j);
    }
  }

  /** Dropping state beyond the last key shows in no row. */
  lemma PruningShowsNothing(json: JsonReading, stored: string, key: string, info: Info)
    ensures var t := Persist(json, stored, key, info); Observed(t) == Rows(t.Keys(), info)
  {
    hide GetKeys, CountKeys;
    var t := Persist(json, stored, key, info);
    forall i | 0 <= i < |t.Keys()| ensures RowAt(t.Keys()[i], t.info, i) == RowAt(t.Keys()[i], info, i) {
    }
  }

  /** Written back and read again, a shorter key list is itself exactly if it can be kept one a line. */
  lemma StoredKeys(t: Table, keys: seq<string>, info: Info)
    requires ReadsArrays(t.json)
    ensures |keys| < |t.Keys()| ==>
              (Persist(t.json, t.key, Join(keys, NEWLINE), info).Keys() == keys <==> Storable(t.json, keys))
  {
    hide GetKeys, CountKeys, Join;
    var text := Join(keys, NEWLINE);
    var after := Persist(t.json, t.key, text, info);
    NothingWritten(keys);
    if text == "" {
      assert |after.Keys()| == |t.Keys()|;
    } else {
      WrittenReadsBack(t.json, keys);
    }
  }

  lemma RowsDetermineKeys(keys: seq<string>, info: Info, keys': seq<string>, info': Info)
    requires Rows(keys, info) == Rows(keys', info')
    ensures keys == keys'
  {
    forall i | 0 <= i < |keys| ensures keys[i] == keys'[i] {
      assert Rows(keys, info)[i].key == Rows(keys', info')[i].key;
    }
  }

  /** Main result for one deletion by either operation: what get_key_status shows afterwards is the
      rows that were kept, in order, if and only if the kept keys can be stored one a line. */
  lemma DeletionShows(t: Table, keep: seq<nat>, info: Info)
    requires ReadsArrays(t.json)
    requires |keep| < |t.Keys()| && forall i :: 0 <= i < |keep| ==> keep[i] < |t.Keys()|
    requires info == AfterDelete(t.info, keep) || info == AfterDeleteDisabled(t.info, keep)
    ensures Observed(Persist(t.json, t.key, Join(Select(t.Keys(), keep), NEWLINE), info)) == Select(Observed(t), keep)
       <==> Storable(t.json, Select(t.Keys(), keep))
  {
    var keys := Select(t.Keys(), keep);
    var after := Persist(t.json, t.key, Join(keys, NEWLINE), info);
    StoredKeys(t, keys, info);
    PruningShowsNothing(t.json, t.key, Join(keys, NEWLINE), info);
    RowsStay(t.Keys(), t.info, keep);
    hide GetKeys, CountKeys, Join, Persist, AfterDelete, AfterDeleteDisabled, RowAt, Storable;
    if Observed(after) == Select(Observed(t), keep) {
      RowsDetermineKeys(after.Keys(), info, keys, info);
    }
  }

  /** Updating keeps no state beyond the recorded size, and changes none below it. */
  lemma NothingBeyondTheSize(json: JsonReading, stored: string, key: string, info: Info, i: int)
    ensures var t := Persist(json, stored, key, info).info;
            && t.size == CountKeys(json, if key == "" then stored else key)
            && (i in t.status <==> i in info.status && i < t.size)
            && (i in t.disabledTime <==> i in info.disabledTime && i < t.size)
            && (i in t.disabledReason <==> i in info.disabledReason && i < t.size)
            && (i in t.usedCount <==> i in info.usedCount && i < t.size)
            && (i in t.maxRequests <==> i in info.maxRequests && i < t.size)
            && (i in t.status ==> t.status[i] == info.status[i])
            && (i in t.disabledTime ==> t.disabledTime[i] == info.disabledTime[i])
            && (i in t.disabledReason ==> t.disabledReason[i] == info.disabledReason[i])
            && (i in t.usedCount ==> t.usedCount[i] == info.usedCount[i])
            && (i in t.maxRequests ==> t.maxRequests[i] == info.maxRequests[i])
  {
    hide CountKeys, GetKeys;
  }

  // ---------------------------------------------------------------- which indices are kept

  lemma {:induction false} KeptSplit(drop: set<int>, lo: nat, mid: nat, hi: nat)
    requires lo <= mid <= hi
    ensures Kept(drop, lo, hi) == Kept(drop, lo, mid) + Kept(drop, mid, hi)
    decreases mid - lo
  {
    if lo < mid {
      KeptSplit(drop, lo + 1, mid, hi);
    }
  }

  lemma {:induction false} KeptCount(drop: set<int>, lo: nat, hi: nat)
    requires lo <= hi
    ensures |Kept(drop, lo, hi)| <= hi - lo
    ensures |Kept(drop, lo, hi)| == hi - lo <==> forall i :: lo <= i < hi ==> i !in drop
    ensures |Kept(drop, lo, hi)| == hi - lo ==> forall j :: 0 <= j < hi - lo ==> Kept(drop, lo, hi)[j] == lo + j
    decreases hi - lo
  {
    if lo < hi { KeptCount(drop, lo + 1, hi); }
  }

  /** Main result: a key that stays moves to the index of the keys kept in front of it, so a token bound
      to it by index still names it if and only if no key in front of it was deleted. */
  lemma BindingStillPoints(drop: set<int>, n: nat, b: nat)
    requires b < n && b !in drop
    ensures var keep, moved := Kept(drop, 0, n), |Kept(drop, 0, b)|;
            && moved < |keep| && keep[moved] == b
            && (moved == b <==> forall i :: 0 <= i < b ==> i !in drop)
            && (b < |keep| && keep[b] == b <==> forall i :: 0 <= i < b ==> i !in drop)
  {
    KeptSplit(drop, 0, b, n);
    KeptCount(drop, 0, b);
    var front, back := Kept(drop, 0, b), Kept(drop, b + 1, n);
    assert Kept(drop, 0, n) == front + ([b] + back);
  }

  lemma KeptFirst(doomed: set<int>, i: nat, n: nat)
    requires i < n
    ensures Kept(doomed, i, n) == (if i in doomed then [] else [i]) + Kept(doomed, i + 1, n)
  {
  }

  lemma AllButOne<T>(s: seq<T>, k: nat)
    requires k < |s|
    ensures Select(s, Kept({k}, 0, |s|)) == s[..k] + s[k + 1..]
    ensures |Kept({k}, 0, |s|)| == |s| - 1
  {
    hide Kept;
    var n := |s|;
    var front, back := Kept({k}, 0, k), Kept({k}, k + 1, n);
    KeptSplit({k}, 0, k, n);
    KeptFirst({k}, k, n);
    KeptCount({k}, 0, k);
    KeptCount({k}, k + 1, n);
    assert Kept({k}, 0, n) == front + back;
    assert forall j :: 0 <= j < k ==> front[j] == j;
    assert forall j :: 0 <= j < n - k - 1 ==> back[j] == k + 1 + j;
    assert Select(s, front) == s[..k] && Select(s, back) == s[k + 1..];
    SelectConcat(s, front, back);
  }

  lemma SelectConcat<T>(s: seq<T>, a: seq<nat>, b: seq<nat>)
    requires forall j :: 0 <= j < |a| ==> a[j] < |s|
    requires forall j :: 0 <= j < |b| ==> b[j] < |s|
    ensures forall j :: 0 <= j < |a + b| ==> (a + b)[j] < |s|
    ensures Select(s, a + b) == Select(s, a) + Select(s, b)
  {
    var x, y := Select(s, a + b), Select(s, a) + Select(s, b);
    assert |x| == |y|;
    forall j | 0 <= j < |x| ensures x[j] == y[j] {
      if j < |a| { assert x[j] == s[a[j]]; } else { assert x[j] == s[b[j - |a|]]; }
    }
  }

  // ---------------------------------------------------------------- bulk deletion against single deletions

  /** delete_key applied to each doomed index below i, highest first; None once a request is refused. */
  ghost function DeleteDown(t: Table, doomed: set<int>, i: nat, bindings: map<int, int>): Option<Table>
    decreases i
  {
    if i == 0 then Some(t)
    else if i - 1 !in doomed then DeleteDown(t, doomed, i - 1, bindings)
    else match DeleteOne(t, i - 1, bindings)
      case None => None
      case Some(next) => DeleteDown(next, doomed, i - 1, bindings)
  }

  /** Main result: delete_key is refused exactly for an index that is out of range, a key with a token bound to
      it, and the last key. */
  lemma RefusedExactly(t: Table, index: int, bindings: map<int, int>)
    ensures t.Valid() ==>
              (DeleteOne(t, index, bindings).None?
               <==> !(0 <= index < |t.Keys()|) || (index in bindings && bindings[index] > 0) || |t.Keys()| == 1)
  {
    hide GetKeys, CountKeys, Join, AfterDelete, Kept, Persist;
    if 0 <= index < |t.Keys()| {
      AllButOne(t.Keys(), index);
    }
  }

  /** One delete_key takes out just that row exactly if the other keys can be stored one a line. */
  lemma DeleteOneShows(t: Table, index: nat, bindings: map<int, int>)
    requires ReadsArrays(t.json) && t.Valid() && index < |t.Keys()| && !Bound(bindings, index)
    ensures var r, rows, keys := DeleteOne(t, index, bindings), Observed(t), t.Keys();
            && (r.None? <==> |keys| == 1)
            && (r.Some? ==> r.value.json == t.json)
            && (r.Some? ==> (Observed(r.value) == rows[..index] + rows[index + 1..]
                             <==> Storable(t.json, keys[..index] + keys[index + 1..])))
  {
    hide GetKeys, CountKeys, Join, AfterDelete, Storable;
    var keys, keep := t.Keys(), Kept({index}, 0, |t.Keys()|);
    AllButOne(keys, index);
    AllButOne(Observed(t), index);
    DeletionShows(t, keep, AfterDelete(t.info, keep));
  }

  /** A list when everything doomed from i on has been taken out. */
  ghost function Remaining<T>(s: seq<T>, doomed: set<int>, i: nat): (r: seq<T>)
    requires i <= |s|
    ensures |r| == i + |Kept(doomed, i, |s|)|
  {
    s[..i] + Select(s, Kept(doomed, i, |s|))
  }

  /** Every list the single deletions below i leave can be stored one a line. */
  ghost predicate StorableDown(json: JsonReading, keys: seq<string>, doomed: set<int>, i: nat)
    requires i <= |keys|
  {
    forall d: nat :: d < i && d in doomed ==> Storable(json, Remaining(keys, doomed, d))
  }

  /** Part way down: the rows below i are as they were, those from i on are the kept ones. */
  ghost predicate DoneDownTo(t: Table, rows: seq<Row>, doomed: set<int>, i: nat)
    requires i <= |rows|
  {
    t.Valid() && |t.Keys()| > 0 && Observed(t) == Remaining(rows, doomed, i)
  }

  lemma RemainingStep<T>(s: seq<T>, doomed: set<int>, i: nat)
    requires 0 < i <= |s|
    ensures var before, after := Remaining(s, doomed, i), Remaining(s, doomed, i - 1);
            after == if i - 1 in doomed then before[..i - 1] + before[i..] else before
  {
    KeptFirst(doomed, i - 1, |s|);
  }

  lemma KeysOfRemaining(t: Table, rows: seq<Row>, keys: seq<string>, doomed: set<int>, i: nat)
    requires i <= |rows| == |keys| && forall j :: 0 <= j < |rows| ==> rows[j].key == keys[j]
    requires Observed(t) == Remaining(rows, doomed, i)
    ensures t.Keys() == Remaining(keys, doomed, i)
  {
    hide GetKeys, Kept;
    forall j | 0 <= j < |t.Keys()| ensures t.Keys()[j] == Remaining(keys, doomed, i)[j] {
      assert Observed(t)[j].key == t.Keys()[j];
    }
  }

  /** The deletion of a doomed key: it shows the next remaining rows exactly if these are storable. */
  lemma DropStep(t: Table, rows: seq<Row>, keys: seq<string>, doomed: set<int>, i: nat, bindings: map<int, int>)
    requires ReadsArrays(t.json) && 0 < i <= |rows| == |keys| && forall j :: 0 <= j < |rows| ==> rows[j].key == keys[j]
    requires i - 1 in doomed && !Bound(bindings, i - 1) && DoneDownTo(t, rows, doomed, i)
    ensures var r := DeleteOne(t, i - 1, bindings);
            && (Storable(t.json, Remaining(keys, doomed, i - 1)) ==>
                  r.Some? && r.value.json == t.json && DoneDownTo(r.value, rows, doomed, i - 1))
            && t.Keys() == Remaining(keys, doomed, i) && i <= |t.Keys()|
            && t.Keys()[..i - 1] + t.Keys()[i..] == Remaining(keys, doomed, i - 1)
  {
    hide Observed, Kept, DeleteOne, GetKeys, Remaining;
    KeysOfRemaining(t, rows, keys, doomed, i);
    RemainingStep(rows, doomed, i);
    RemainingStep(keys, doomed, i);
    DeleteOneShows(t, i - 1, bindings);
    DeletedIsValid(t, i - 1, bindings);
  }

  lemma DeletedIsValid(t: Table, index: nat, bindings: map<int, int>)
    ensures var r := DeleteOne(t, index, bindings);
            r.Some? && |Observed(r.value)| > 0 ==> r.value.Valid() && |r.value.Keys()| > 0
    ensures |Observed(t)| == |t.Keys()|
  {
    hide GetKeys, CountKeys, Join, AfterDelete, Kept;
  }

  lemma {:induction false} DeleteDownShows(t: Table, rows: seq<Row>, keys: seq<string>, doomed: set<int>, i: nat,
                                           bindings: map<int, int>)
    requires ReadsArrays(t.json) && i <= |rows| == |keys| && forall j :: 0 <= j < |rows| ==> rows[j].key == keys[j]
    requires DoneDownTo(t, rows, doomed, i) && StorableDown(t.json, keys, doomed, i)
    requires forall d :: d in doomed ==> !Bound(bindings, d)
    ensures var r := DeleteDown(t, doomed, i, bindings);
            r.Some? && Observed(r.value) == Select(rows, Kept(doomed, 0, |rows|))
    decreases i
  {
    hide *;
    if i == 0 {
      DownEnds(t, rows, doomed, i, bindings);
    } else if i - 1 !in doomed {
      SkipStep(t, rows, doomed, i);
      StorableBelow(t.json, keys, doomed, i);
      DeleteDownShows(t, rows, keys, doomed, i - 1, bindings);
      DownSkips(t, doomed, i, bindings);
    } else {
      DropStep(t, rows, keys, doomed, i, bindings);
      StorableBelow(t.json, keys, doomed, i);
      DownDrops(t, doomed, i, bindings);
      DeleteDownShows(DeleteOne(t, i - 1, bindings).value, rows, keys, doomed, i - 1, bindings);
    }
  }

  lemma StorableBelow(json: JsonReading, keys: seq<string>, doomed: set<int>, i: nat)
    requires 0 < i <= |keys|
    ensures StorableDown(json, keys, doomed, i) <==>
              StorableDown(json, keys, doomed, i - 1) &&
              (i - 1 in doomed ==> Storable(json, Remaining(keys, doomed, i - 1)))
  {
    hide Storable, Remaining;
  }

  lemma SkipStep(t: Table, rows: seq<Row>, doomed: set<int>, i: nat)
    requires 0 < i <= |rows| && i - 1 !in doomed && DoneDownTo(t, rows, doomed, i)
    ensures DoneDownTo(t, rows, doomed, i - 1)
  {
    hide Observed, Kept;
    RemainingStep(rows, doomed, i);
  }

  lemma DownEnds(t: Table, rows: seq<Row>, doomed: set<int>, i: nat, bindings: map<int, int>)
    requires i == 0 && DoneDownTo(t, rows, doomed, i)
    ensures var r := DeleteDown(t, doomed, i, bindings);
            r == Some(t) && Observed(t) == Select(rows, Kept(doomed, 0, |rows|))
  {
    hide Observed, Kept, DeleteOne, GetKeys;
    assert rows[..0] + Select(rows, Kept(doomed, 0, |rows|)) == Select(rows, Kept(doomed, 0, |rows|));
  }

  lemma DownSkips(t: Table, doomed: set<int>, i: nat, bindings: map<int, int>)
    requires i > 0 && i - 1 !in doomed
    ensures DeleteDown(t, doomed, i, bindings) == DeleteDown(t, doomed, i - 1, bindings)
  {
  }

  lemma DownDrops(t: Table, doomed: set<int>, i: nat, bindings: map<int, int>)
    requires i > 0 && i - 1 in doomed
    ensures var r := DeleteOne(t, i - 1, bindings);
            DeleteDown(t, doomed, i, bindings) == if r.None? then None else DeleteDown(r.value, doomed, i - 1, bindings)
  {
  }

  // ---------------------------------------------------------------- plain keys: what a bad list on the way costs

  /** A table of plain keys with solid ends stays one, and each single deletion makes it shorter. */
  lemma DeleteOneShrinks(t: Table, index: nat, bindings: map<int, int>)
    requires Plain(t.Keys()) && SolidEnds(t.Keys())
    ensures var r := DeleteOne(t, index, bindings);
            r.Some? && index < |t.Keys()| ==>
              var kept, back := t.Keys()[..index] + t.Keys()[index + 1..], r.value.Keys();
              && r.value.json == t.json && Plain(back) && SolidEnds(back) && r.value.Valid()
              && |back| <= |kept| && (!SolidEnds(kept) ==> |back| < |kept|)
  {
    hide Plain, SolidEnds, GetKeys, CountKeys, Join, AfterDelete, Kept;
    var r := DeleteOne(t, index, bindings);
    if r.Some? && index < |t.Keys()| {
      var kept := t.Keys()[..index] + t.Keys()[index + 1..];
      AllButOne(t.Keys(), index);
      PlainWithout(t.json, t.Keys(), index);
      assert r.value.Keys() == GetKeys(t.json, Join(kept, NEWLINE));
    }
  }

  lemma PlainWithout(json: JsonReading, keys: seq<string>, index: nat)
    requires Plain(keys) && SolidEnds(keys) && index < |keys| && |keys| > 1
    ensures var kept := keys[..index] + keys[index + 1..];
            var back := GetKeys(json, Join(kept, NEWLINE));
            && Join(kept, NEWLINE) != "" && back != [] && Plain(back) && SolidEnds(back)
            && |back| <= |kept| && (!SolidEnds(kept) ==> |back| < |kept|)
  {
    hide Bracketed, Parse, Join;
    var kept := keys[..index] + keys[index + 1..];
    assert forall i :: 0 <= i < |kept| ==> kept[i] == keys[if i < index then i else i + 1];
    assert Plain(kept);
    PlainStorable(json, kept);
    if index == 0 { assert kept[|kept| - 1] != ""; } else { assert kept[0] != ""; }
    NothingWritten(kept);
    ReadLength(kept);
  }

  lemma {:induction false} DeleteDownShrinks(t: Table, doomed: set<int>, i: nat, bindings: map<int, int>)
    requires Plain(t.Keys()) && SolidEnds(t.Keys()) && t.Valid()
    ensures var r := DeleteDown(t, doomed, i, bindings);
            r.Some? ==> |r.value.Keys()| + i - |Kept(doomed, 0, i)| <= |t.Keys()|
    decreases i
  {
    hide Plain, SolidEnds, GetKeys, DeleteOne;
    if i > 0 {
      KeptSnoc(doomed, 0, i - 1);
      if i - 1 !in doomed {
        DeleteDownShrinks(t, doomed, i - 1, bindings);
      } else if DeleteOne(t, i - 1, bindings).Some? {
        InRange(t, i - 1, bindings);
        DeleteOneShrinks(t, i - 1, bindings);
        DeleteDownShrinks(DeleteOne(t, i - 1, bindings).value, doomed, i - 1, bindings);
      }
    }
  }

  lemma InRange(t: Table, index: nat, bindings: map<int, int>)
    requires t.Valid() && DeleteOne(t, index, bindings).Some?
    ensures index < |t.Keys()|
  {
    hide GetKeys, Kept;
  }

  /** With plain keys, once a list on the way cannot be stored, too little is left in the end. */
  lemma {:induction false} DownFallsShort(t: Table, rows: seq<Row>, keys: seq<string>, doomed: set<int>, i: nat,
                                          bindings: map<int, int>)
    requires ReadsArrays(t.json) && i <= |rows| == |keys| && forall j :: 0 <= j < |rows| ==> rows[j].key == keys[j]
    requires DoneDownTo(t, rows, doomed, i) && !StorableDown(t.json, keys, doomed, i)
    requires Plain(t.Keys()) && SolidEnds(t.Keys())
    requires forall d :: d in doomed ==> !Bound(bindings, d)
    ensures var r := DeleteDown(t, doomed, i, bindings); r.Some? ==> |r.value.Keys()| < |Kept(doomed, 0, |rows|)|
    decreases i
  {
    hide *;
    if i == 0 {
      NoneBelow(t.json, keys, doomed);
    } else {
      StorableBelow(t.json, keys, doomed, i);
      if i - 1 !in doomed {
        SkipStep(t, rows, doomed, i);
        DownFallsShort(t, rows, keys, doomed, i - 1, bindings);
        DownSkips(t, doomed, i, bindings);
      } else {
        DownDrops(t, doomed, i, bindings);
        DropStep(t, rows, keys, doomed, i, bindings);
        var r := DeleteOne(t, i - 1, bindings);
        DeleteOneShrinks(t, i - 1, bindings);
        if r.Some? {
          if Storable(t.json, Remaining(keys, doomed, i - 1)) {
            DownFallsShort(r.value, rows, keys, doomed, i - 1, bindings);
          } else {
            TooShort(t.json, t.Keys(), Remaining(keys, doomed, i - 1), i - 1);
            DeleteDownShrinks(r.value, doomed, i - 1, bindings);
            KeptSplit(doomed, 0, i - 1, |rows|);
          }
        }
      }
    }
  }

  lemma NoneBelow(json: JsonReading, keys: seq<string>, doomed: set<int>)
    ensures StorableDown(json, keys, doomed, 0)
  {
  }

  lemma TooShort(json: JsonReading, keys: seq<string>, kept: seq<string>, index: nat)
    requires Plain(keys) && index < |keys| && kept == keys[..index] + keys[index + 1..]
    ensures Storable(json, kept) <==> SolidEnds(kept)
  {
    hide Bracketed, Join, Storable;
    assert forall i :: 0 <= i < |kept| ==> kept[i] == keys[if i < index then i else i + 1];
    PlainStorable(json, kept);
  }

  // ---------------------------------------------------------------- bulk deletion

  /** delete_disabled_keys shows the kept rows exactly if the kept keys can be stored one a line, or
      nothing is deleted. */
  lemma DeleteDoomedShows(t: Table, bindings: map<int, int>)
    requires ReadsArrays(t.json)
    ensures var keys, keep := t.Keys(), Kept(Doomed(t, bindings), 0, |t.Keys()|);
            Observed(DeleteDoomed(t, bindings)) == Select(Observed(t), keep) <==>
              |keep| == |keys| || Storable(t.json, Select(keys, keep))
  {
    hide GetKeys, CountKeys, Join, Persist, AfterDeleteDisabled, Storable;
    var keys, doomed := t.Keys(), Doomed(t, bindings);
    var keep := Kept(doomed, 0, |keys|);
    KeptCount(doomed, 0, |keys|);
    if |keep| < |keys| {
      DeletionShows(t, keep, AfterDeleteDisabled(t.info, keep));
    }
  }

  /** When every key is doomed nothing is deleted: the key text stays and each key is enabled again,
      with its counter and its limit gone. */
  lemma DeletingAllRevivesAll(t: Table, bindings: map<int, int>)
    ensures var keys, after := t.Keys(), DeleteDoomed(t, bindings);
            keys != [] && Kept(Doomed(t, bindings), 0, |keys|) == [] ==>
              && after.Keys() == keys
              && forall i :: 0 <= i < |keys| ==> Observed(after)[i] == Row(keys[i], ENABLED, 0, "", 0, 0)
  {
    hide GetKeys, CountKeys, Kept;
    EmptyJoin(NEWLINE);
  }

  /** Main result: if every list on the way can be stored, deleting the doomed keys one by one from the
      highest index down is accepted, and it and the bulk deletion both show exactly the kept rows. For plain
      keys the single deletions leave the kept rows only if every list on the way can be stored. */
  lemma BulkDeleteIsDeleteDown(t: Table, bindings: map<int, int>)
    requires ReadsArrays(t.json)
    ensures var n, doomed, rows := |t.Keys()|, Doomed(t, bindings), Observed(t);
            var r, kept := DeleteDown(t, doomed, n, bindings), Select(rows, Kept(doomed, 0, n));
            t.Valid() && n > 0 ==>
            && (StorableDown(t.json, t.Keys(), doomed, n) ==>
                  r.Some? && Observed(r.value) == kept && Observed(DeleteDoomed(t, bindings)) == kept)
            && (Plain(t.Keys()) && r.Some? && Observed(r.value) == kept ==> StorableDown(t.json, t.Keys(), doomed, n))
  {
    hide GetKeys, CountKeys, Storable, Persist, DeleteDown, RowAt, Join;
    var keys, doomed, rows := t.Keys(), Doomed(t, bindings), Observed(t);
    var n := |keys|;
    assert forall j :: 0 <= j < n ==> rows[j].key == keys[j] by { RowKeys(t); }
    assert Remaining(rows, doomed, n) == rows by { assert Kept(doomed, n, n) == []; }
    if !t.Valid() || n == 0 {
    } else if StorableDown(t.json, keys, doomed, n) {
      DeleteDownShows(t, rows, keys, doomed, n, bindings);
      LastIsKept(t.json, keys, doomed);
      DeleteDoomedShows(t, bindings);
    } else if Plain(keys) {
      KeysAreSolid(t.json, t.key);
      if SolidEnds(keys) {
        DownFallsShort(t, rows, keys, doomed, n, bindings);
      } else {
        LoneBlank(t, doomed, bindings);
      }
    }
  }

  lemma RowKeys(t: Table)
    ensures forall j :: 0 <= j < |t.Keys()| ==> Observed(t)[j].key == t.Keys()[j]
  {
    hide GetKeys;
  }

  /** The last list on the way is the kept one. */
  lemma LastIsKept(json: JsonReading, keys: seq<string>, doomed: set<int>)
    requires StorableDown(json, keys, doomed, |keys|)
    ensures var keep := Kept(doomed, 0, |keys|); |keep| == |keys| || Storable(json, Select(keys, keep))
  {
    hide Storable, Kept, Remaining;
    var n := |keys|;
    KeptCount(doomed, 0, n);
    if |Kept(doomed, 0, n)| < n {
      var d := Lowest(doomed, n);
      KeptCount(doomed, 0, d);
      KeptSplit(doomed, 0, d, n);
      SameList(keys, doomed, d);
      assert Storable(json, Remaining(keys, doomed, d));
    }
  }

  lemma {:induction false} Lowest(doomed: set<int>, n: nat) returns (d: nat)
    requires exists i :: 0 <= i < n && i in doomed
    ensures d < n && d in doomed && forall i :: 0 <= i < d ==> i !in doomed
  {
    d := 0;
    while d !in doomed
      invariant d < n && forall i :: 0 <= i < d ==> i !in doomed
      decreases n - d
    {
      d := d + 1;
    }
  }

  lemma SameList(keys: seq<string>, doomed: set<int>, d: nat)
    requires d <= |keys| && forall i :: 0 <= i < d ==> i !in doomed
    ensures Select(keys, Kept(doomed, 0, |keys|)) == Remaining(keys, doomed, d)
  {
    var n := |keys|;
    var front, back := Kept(doomed, 0, d), Kept(doomed, d, n);
    KeptCount(doomed, 0, d);
    KeptSplit(doomed, 0, d, n);
    hide Kept;
    SelectConcat(keys, front, back);
    assert Select(keys, front) == keys[..d];
  }

  /** A single blank key cannot be deleted. */
  lemma LoneBlank(t: Table, doomed: set<int>, bindings: map<int, int>)
    requires t.Valid() && t.Keys() == [""] && !StorableDown(t.json, t.Keys(), doomed, 1)
    ensures DeleteDown(t, doomed, 1, bindings).None?
  {
    hide GetKeys, Persist;
    AllButOne(t.Keys(), 0);
  }

  /** Where no key is blank, plain keys can be stored all the way down exactly if a key survives. */
  lemma NoBlankStorable(json: JsonReading, keys: seq<string>, doomed: set<int>)
    requires Plain(keys) && keys != [] && forall i :: 0 <= i < |keys| ==> keys[i] != ""
    ensures StorableDown(json, keys, doomed, |keys|) <==> Kept(doomed, 0, |keys|) != []
  {
    hide Bracketed, Join, Storable, Kept, Remaining;
    var n := |keys|;
    KeptCount(doomed, 0, n);
    forall d: nat | d < n ensures Storable(json, Remaining(keys, doomed, d)) <==> Remaining(keys, doomed, d) != [] {
      PlainRemaining(json, keys, doomed, d);
    }
    if Kept(doomed, 0, n) == [] {
      LastIsEmpty(json, keys, doomed);
    } else {
      forall d: nat | d < n ensures Remaining(keys, doomed, d) != [] { KeptSplit(doomed, 0, d, n); KeptCount(doomed, 0, d); }
    }
  }

  lemma PlainRemaining(json: JsonReading, keys: seq<string>, doomed: set<int>, d: nat)
    requires Plain(keys) && d <= |keys| && forall i :: 0 <= i < |keys| ==> keys[i] != ""
    ensures Storable(json, Remaining(keys, doomed, d)) <==> Remaining(keys, doomed, d) != []
  {
    hide Bracketed, Join, Storable, Kept;
    var list, keep := Remaining(keys, doomed, d), Kept(doomed, d, |keys|);
    assert forall i :: 0 <= i < |list| ==> list[i] == keys[if i < d then i else keep[i - d]];
    PlainStorable(json, list);
  }

  lemma LastIsEmpty(json: JsonReading, keys: seq<string>, doomed: set<int>)
    requires keys != [] && Kept(doomed, 0, |keys|) == []
    ensures !StorableDown(json, keys, doomed, |keys|)
  {
    hide Kept, Join;
    KeptFirst(doomed, 0, |keys|);
    assert 0 in doomed && Remaining(keys, doomed, 0) == [];
  }

  /** A blank key between two doomed ones: it would survive, but the first single deletion loses it too. */
  lemma BlankBetween(json: JsonReading, a: string, b: string, doomed: set<int>)
    requires 0 in doomed && 1 !in doomed && 2 in doomed
    ensures var keys := [a, "", b];
            Kept(doomed, 0, 3) == [1] && !StorableDown(json, keys, doomed, 3)
  {
    hide Join, JsonKeys;
    var keys := [a, "", b];
    KeptFirst(doomed, 2, 3);
    KeptFirst(doomed, 1, 3);
    KeptFirst(doomed, 0, 3);
    assert Kept(doomed, 3, 3) == [];
    assert Remaining(keys, doomed, 2) == [a, ""];
    assert !Storable(json, Remaining(keys, doomed, 2));
  }

  /** No key with a token bound to it is ever among the doomed, and only those with status 3 are. */
  lemma OnlyUnboundDisabledGo(t: Table, bindings: map<int, int>, i: nat)
    ensures i < |t.Keys()| ==>
              (i !in Kept(Doomed(t, bindings), 0, |t.Keys()|) <==>
                 i in t.info.status && t.info.status[i] == 3 && !(i in bindings && bindings[i] > 0))
  {
    hide GetKeys;
    var doomed, n := Doomed(t, bindings), |t.Keys()|;
    if i < n && i !in doomed {
      BindingStillPoints(doomed, n, i);
      assert Kept(doomed, 0, n)[|Kept(doomed, 0, i)|] == i;
    }
  }
}
