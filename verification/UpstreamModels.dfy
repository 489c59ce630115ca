/**
 Keeping a channel's model list in step with its upstream: detecting what was added and removed there
 and applying an administrator's selection (controller/channel_upstream_update.go).
 */
module UpstreamModels {
  import opened Text
  import opened TextLists

  const COMMA := ','
  const REGEX := "regex:"

  // ---------------------------------------------------------------- ordered-set algebra on name lists

  /** normalizeModelNames: trimmed, blanks dropped, first occurrences kept. */
  function Normalize(models: seq<string>): seq<string> {
    Unseen(Trimmed(models), {})
  }

  function Merge(base: seq<string>, appended: seq<string>): seq<string> {
    Normalize(base) + Unseen(Normalize(appended), SetOf(Normalize(base)))
  }

  function Subtract(base: seq<string>, removed: seq<string>): seq<string> {
    Unseen(Normalize(base), SetOf(Normalize(removed)))
  }

  /** The entries that are in a set, in order. */
  function Within(keys: seq<string>, allowed: set<string>): seq<string> {
    if keys == [] then []
    else
      var before := Within(keys[..|keys| - 1], allowed);
      if keys[|keys| - 1] in allowed then before + [keys[|keys| - 1]] else before
  }

  function Intersect(base: seq<string>, allowed: seq<string>): seq<string> {
    Within(Normalize(base), SetOf(Normalize(allowed)))
  }

  /** applySelectedModelChanges: an add wins over a removal of the same name. */
  function ApplySelected(origin: seq<string>, add: seq<string>, remove: seq<string>): seq<string> {
    var normalizedAdd := Normalize(add);
    var normalizedRemove := Subtract(Normalize(remove), normalizedAdd);
    Subtract(Merge(origin, normalizedAdd), normalizedRemove)
  }

  /** A normal list: entries trimmed, not blank, pairwise different. */
  ghost predicate Normal(keys: seq<string>) {
    Clean(keys) && Distinct(keys)
  }

  lemma NormalizeIsNormal(models: seq<string>)
    ensures Normal(Normalize(models))
  {
    TrimmedIsClean(models);
    UnseenIsClean(Trimmed(models), {});
    UnseenIsDistinct(Trimmed(models), {});
  }

  /** The names a list holds: its entries, trimmed, but for blank ones, in their order. */
  lemma NormalizedNames(models: seq<string>, k: string)
    ensures k in Normalize(models) <==> k != "" && exists i :: 0 <= i < |models| && TrimSpace(models[i]) == k
    ensures InOrder(Normalize(models), EachTrimmed(models))
  {
    hide TrimSpace, InOrder;
    CleanedInOrder(models, {});
    UnseenIsAll(Trimmed(models), {}, k);
    TrimmedIsAll(models, k);
  }

  lemma NormalIsFixed(keys: seq<string>)
    requires Normal(keys)
    ensures Normalize(keys) == keys
  {
    hide TrimSpace;
    CleanIsTrimmed(keys);
    DistinctAllPass(keys, {});
  }

  lemma UnseenIsNormal(keys: seq<string>, seen: set<string>)
    requires Normal(keys)
    ensures Normal(Unseen(keys, seen))
  {
    UnseenIsClean(keys, seen);
    UnseenIsDistinct(keys, seen);
  }

  lemma {:induction false} WithinIsAll(keys: seq<string>, allowed: set<string>, k: string)
    ensures k in Within(keys, allowed) <==> k in keys && k in allowed
  {
    if keys != [] {
      var n := |keys| - 1;
      WithinIsAll(keys[..n], allowed, k);
      assert keys == keys[..n] + [keys[n]];
    }
  }

  lemma {:induction false} WithinIsNormal(keys: seq<string>, allowed: set<string>)
    requires Normal(keys)
    ensures Normal(Within(keys, allowed))
  {
    hide TrimSpace;
    if keys != [] {
      var n := |keys| - 1;
      WithinIsNormal(keys[..n], allowed);
      WithinIsAll(keys[..n], allowed, keys[n]);
    }
  }

  lemma ConcatIsNormal(a: seq<string>, b: seq<string>)
    requires Normal(a) && Normal(b) && forall k :: k in b ==> k !in a
    ensures Normal(a + b)
  {
    hide TrimSpace;
    var c := a + b;
    forall i, j | 0 <= i < j < |c| ensures c[i] != c[j] {
      if i < |a| <= j { assert b[j - |a|] in b && c[i] in a; }
    }
  }

  lemma SetOfUnseen(keys: seq<string>, seen: set<string>)
    ensures SetOf(Unseen(keys, seen)) == SetOf(keys) - seen
  {
    hide Unseen;
    forall k ensures k in Unseen(keys, seen) <==> k in keys && k !in seen {
      UnseenIsAll(keys, seen, k);
    }
  }

  /** What two lists have in common stands in the order of the first. */
  lemma {:induction false} WithinInOrder(keys: seq<string>, allowed: set<string>)
    ensures InOrder(Within(keys, allowed), keys)
  {
    if keys != [] {
      var n := |keys| - 1;
      WithinInOrder(keys[..n], allowed);
      hide InOrder;
      InOrderSnoc(Within(keys[..n], allowed), keys[..n], keys[n]);
      assert keys == keys[..n] + [keys[n]];
    }
  }

  lemma SetOfWithin(keys: seq<string>, allowed: set<string>)
    ensures SetOf(Within(keys, allowed)) == SetOf(keys) * allowed
  {
    hide Within;
    forall k ensures k in Within(keys, allowed) <==> k in keys && k in allowed {
      WithinIsAll(keys, allowed, k);
    }
  }

  /** Each operation yields a normal list with the members its name promises. */
  lemma Merged(base: seq<string>, appended: seq<string>)
    ensures Normal(Merge(base, appended))
    ensures SetOf(Merge(base, appended)) == SetOf(Normalize(base)) + SetOf(Normalize(appended))
  {
    hide Unseen, Normalize, Normal;
    var a, b := Normalize(base), Normalize(appended);
    NormalizeIsNormal(base);
    NormalizeIsNormal(appended);
    UnseenIsNormal(b, SetOf(a));
    SetOfUnseen(b, SetOf(a));
    SetOfConcat(a, Unseen(b, SetOf(a)));
    assert forall k :: k in Unseen(b, SetOf(a)) ==> k in SetOf(Unseen(b, SetOf(a)));
    ConcatIsNormal(a, Unseen(b, SetOf(a)));
  }

  lemma Subtracted(base: seq<string>, removed: seq<string>)
    ensures Normal(Subtract(base, removed))
    ensures SetOf(Subtract(base, removed)) == SetOf(Normalize(base)) - SetOf(Normalize(removed))
  {
    hide Unseen, Normalize, Normal;
    NormalizeIsNormal(base);
    UnseenIsNormal(Normalize(base), SetOf(Normalize(removed)));
    SetOfUnseen(Normalize(base), SetOf(Normalize(removed)));
  }

  lemma Intersected(base: seq<string>, allowed: seq<string>)
    ensures Normal(Intersect(base, allowed))
    ensures SetOf(Intersect(base, allowed)) == SetOf(Normalize(base)) * SetOf(Normalize(allowed))
  {
    hide Within, Normalize, Normal;
    NormalizeIsNormal(base);
    WithinIsNormal(Normalize(base), SetOf(Normalize(allowed)));
    SetOfWithin(Normalize(base), SetOf(Normalize(allowed)));
  }

  /** Filtering a list without repetitions splits over concatenation. */
  lemma {:induction false} UnseenConcat(a: seq<string>, b: seq<string>, seen: set<string>)
    requires Distinct(a + b)
    ensures Unseen(a + b, seen) == Unseen(a, seen) + Unseen(b, seen)
  {
    if b == [] {
      assert a + b == a;
    } else {
      var n := |b| - 1;
      var c := a + b;
      assert c[..|c| - 1] == a + b[..n] && c[|c| - 1] == b[n];
      UnseenConcat(a, b[..n], seen);
      UnseenIsAll(a + b[..n], seen, b[n]);
      UnseenIsAll(b[..n], seen, b[n]);
      NewLast(c);
      assert b[n] !in b[..n];
    }
  }

  lemma NewLast(c: seq<string>)
    requires |c| > 0 && Distinct(c)
    ensures c[|c| - 1] !in c[..|c| - 1]
  {
  }

  /** Main result: selected changes keep the surviving names first, in their order, and put the new ones
      behind them in theirs; a name in both selections is added. */
  lemma ApplySelectedShape(origin: seq<string>, add: seq<string>, remove: seq<string>)
    requires Normal(origin) && Normal(add) && Normal(remove)
    ensures ApplySelected(origin, add, remove) == Unseen(origin, SetOf(remove) - SetOf(add)) + Unseen(add, SetOf(origin))
    ensures Normal(ApplySelected(origin, add, remove))
    ensures SetOf(ApplySelected(origin, add, remove)) == (SetOf(origin) - SetOf(remove)) + SetOf(add)
  {
    hide Unseen, Normalize, Normal, SetOf;
    var gone, merged, more := Subtract(remove, add), Merge(origin, add), Unseen(add, SetOf(origin));
    NormalIsFixed(origin);
    NormalIsFixed(add);
    NormalIsFixed(remove);
    Subtracted(remove, add);
    NormalIsFixed(gone);
    Merged(origin, add);
    NormalIsFixed(merged);
    Subtracted(merged, gone);
    SetOfUnseen(add, SetOf(origin));
    NormalIsDistinct(merged);
    UnseenConcat(origin, more, SetOf(gone));
    UnseenIsNormal(add, SetOf(origin));
    PassAll(more, SetOf(gone));
  }

  lemma NormalIsDistinct(keys: seq<string>)
    requires Normal(keys)
    ensures Distinct(keys)
  {
  }

  lemma PassAll(keys: seq<string>, seen: set<string>)
    requires Normal(keys) && SetOf(keys) !! seen
    ensures Unseen(keys, seen) == keys
  {
    hide Unseen, TrimSpace;
    assert forall i :: 0 <= i < |keys| ==> keys[i] in SetOf(keys);
    DistinctAllPass(keys, seen);
  }

  /** mergeModelNames as the gateway runs it, one name at a time. */
  method MergeModelNames(base: seq<string>, appended: seq<string>) returns (merged: seq<string>)
    ensures merged == Merge(base, appended)
  {
    hide Normalize, Unseen, SetOf;
    merged := Normalize(base);
    var seen := SetOf(merged);
    ghost var known := seen;
    var more := Normalize(appended);
    ghost var added: seq<string> := [];
    UnseenNone(known);
    for i := 0 to |more|
      invariant added == Unseen(more[..i], known) && merged == Normalize(base) + added
      invariant forall k :: k in seen <==> k in known || k in added
    {
      UnseenSnoc(more[..i], more[i], known);
      assert more[..i + 1] == more[..i] + [more[i]];
      if more[i] in seen {
        continue;
      }
      seen := seen + {more[i]};
      merged := merged + [more[i]];
      added := added + [more[i]];
    }
    assert more[..|more|] == more;
  }

  lemma UnseenNone(seen: set<string>)
    ensures Unseen([], seen) == []
  {
  }

  // ---------------------------------------------------------------- detection

  /** Whether a regular expression body matches a name; one that does not compile matches none. */
  type Engine = (string, string) -> bool

  predicate HasRegexPrefix(entry: string) {
    |entry| >= |REGEX| && entry[..|REGEX|] == REGEX
  }

  predicate IgnoredBy(entry: string, name: string, engine: Engine) {
    if HasRegexPrefix(entry) then engine(TrimSpace(entry[|REGEX|..]), name) else entry == name
  }

  predicate Ignored(name: string, ignored: seq<string>, engine: Engine) {
    exists i :: 0 <= i < |ignored| && IgnoredBy(ignored[i], name, engine)
  }

  /** What an ignore list keeps out: the names in it, but for those that read as a regular expression, and the
      names that some regular expression in it, trimmed, matches. */
  lemma IgnoredExactly(name: string, ignored: seq<string>, engine: Engine)
    ensures Ignored(name, ignored, engine) <==>
              || (name in ignored && !(6 <= |name| && name[..6] == "regex:"))
              || exists body: string :: "regex:" + body in ignored && engine(TrimSpace(body), name)
  {
    hide TrimSpace;
    if i :| 0 <= i < |ignored| && IgnoredBy(ignored[i], name, engine) && HasRegexPrefix(ignored[i]) {
      var body := ignored[i][6..];
      assert ignored[i] == "regex:" + body;
    }
    if body: string :| "regex:" + body in ignored && engine(TrimSpace(body), name) {
      var i :| 0 <= i < |ignored| && ignored[i] == "regex:" + body;
      assert ignored[i][..6] == "regex:" && ignored[i][6..] == body;
    }
    if name in ignored && !(6 <= |name| && name[..6] == "regex:") {
      var i :| 0 <= i < |ignored| && ignored[i] == name;
      assert IgnoredBy(ignored[i], name, engine);
    }
  }

  function NotIgnored(names: seq<string>, ignored: seq<string>, engine: Engine): seq<string> {
    if names == [] then []
    else
      var n := |names| - 1;
      var before := NotIgnored(names[..n], ignored, engine);
      if Ignored(names[n], ignored, engine) then before else before + [names[n]]
  }

  /** Upstream names that are neither local, nor the target of a redirect, nor ignored. */
  function PendingAdd(local: seq<string>, upstream: seq<string>, ignored: seq<string>, mapping: map<string, string>,
                      engine: Engine): seq<string>
  {
    NotIgnored(Unseen(Normalize(upstream), SetOf(Normalize(local)) + mapping.Values), Normalize(ignored), engine)
  }

  /** Local names that are neither upstream nor the source of a redirect. */
  function PendingRemove(local: seq<string>, upstream: seq<string>, mapping: map<string, string>): seq<string> {
    Unseen(Normalize(local), mapping.Keys + SetOf(Normalize(upstream)))
  }

  lemma {:induction false} NotIgnoredIsAll(names: seq<string>, ignored: seq<string>, engine: Engine, k: string)
    ensures k in NotIgnored(names, ignored, engine) <==> k in names && !Ignored(k, ignored, engine)
  {
    hide Ignored;
    if names != [] {
      var n := |names| - 1;
      NotIgnoredIsAll(names[..n], ignored, engine, k);
      assert names == names[..n] + [names[n]];
    }
  }

  lemma {:induction false} NotIgnoredIsNormal(names: seq<string>, ignored: seq<string>, engine: Engine)
    requires Normal(names)
    ensures Normal(NotIgnored(names, ignored, engine))
  {
    hide Ignored, TrimSpace;
    if names != [] {
      var n := |names| - 1;
      NotIgnoredIsNormal(names[..n], ignored, engine);
      NotIgnoredIsAll(names[..n], ignored, engine, names[n]);
    }
  }

  lemma {:induction false} NotIgnoredInOrder(names: seq<string>, ignored: seq<string>, engine: Engine)
    ensures InOrder(NotIgnored(names, ignored, engine), names)
  {
    hide Ignored;
    if names != [] {
      var n := |names| - 1;
      NotIgnoredInOrder(names[..n], ignored, engine);
      hide InOrder;
      InOrderSnoc(NotIgnored(names[..n], ignored, engine), names[..n], names[n]);
      assert names == names[..n] + [names[n]];
    }
  }

  /** What is pending stands in the order of the list it comes from, and so does what is picked of it in the order
      of the selection. */
  lemma PendingInOrder(local: seq<string>, upstream: seq<string>, ignored: seq<string>, mapping: map<string, string>,
                       engine: Engine, pick: seq<string>)
    ensures var add, remove := PendingAdd(local, upstream, ignored, mapping, engine), PendingRemove(local, upstream, mapping);
            && InOrder(add, Normalize(upstream)) && InOrder(remove, Normalize(local))
            && InOrder(Intersect(pick, add), Normalize(pick)) && InOrder(Intersect(pick, remove), Normalize(pick))
  {
    hide InOrder, Ignored, Unseen, NotIgnored, Normalize, Within;
    var covered := SetOf(Normalize(local)) + mapping.Values;
    var open := Unseen(Normalize(upstream), covered);
    UnseenInOrder(Normalize(upstream), covered);
    NotIgnoredInOrder(open, Normalize(ignored), engine);
    InOrderTransitive(NotIgnored(open, Normalize(ignored), engine), open, Normalize(upstream));
    UnseenInOrder(Normalize(local), mapping.Keys + SetOf(Normalize(upstream)));
    WithinInOrder(Normalize(pick), SetOf(Normalize(PendingAdd(local, upstream, ignored, mapping, engine))));
    WithinInOrder(Normalize(pick), SetOf(Normalize(PendingRemove(local, upstream, mapping))));
  }

  /** Exactly what is pending. */
  lemma Detected(local: seq<string>, upstream: seq<string>, ignored: seq<string>, mapping: map<string, string>, engine: Engine)
    ensures var add := PendingAdd(local, upstream, ignored, mapping, engine);
            && Normal(add)
            && forall k :: k in SetOf(add) <==>
                 k in SetOf(Normalize(upstream)) && k !in SetOf(Normalize(local)) && k !in mapping.Values
                 && !Ignored(k, Normalize(ignored), engine)
    ensures Normal(PendingRemove(local, upstream, mapping))
    ensures SetOf(PendingRemove(local, upstream, mapping)) == SetOf(Normalize(local)) - mapping.Keys - SetOf(Normalize(upstream))
  {
    hide Unseen, Normalize, Normal, Ignored, NotIgnored;
    var l, u, i := Normalize(local), Normalize(upstream), Normalize(ignored);
    var open := Unseen(u, SetOf(l) + mapping.Values);
    NormalizeIsNormal(local);
    NormalizeIsNormal(upstream);
    UnseenIsNormal(u, SetOf(l) + mapping.Values);
    SetOfUnseen(u, SetOf(l) + mapping.Values);
    NotIgnoredIsNormal(open, i, engine);
    forall k ensures k in NotIgnored(open, i, engine) <==> k in SetOf(open) && !Ignored(k, i, engine) {
      NotIgnoredIsAll(open, i, engine, k);
    }
    UnseenIsNormal(l, mapping.Keys + SetOf(u));
    SetOfUnseen(l, mapping.Keys + SetOf(u));
  }

  /** collectPendingUpstreamModelChangesFromModels as the gateway runs it. */
  method CollectPending(localModels: seq<string>, upstreamModels: seq<string>, ignoredModels: seq<string>,
                        mapping: map<string, string>, engine: Engine)
      returns (pendingAdd: seq<string>, pendingRemove: seq<string>)
    ensures pendingAdd == PendingAdd(localModels, upstreamModels, ignoredModels, mapping, engine)
    ensures pendingRemove == PendingRemove(localModels, upstreamModels, mapping)
  {
    Detected(localModels, upstreamModels, ignoredModels, mapping, engine);
    hide Normalize, Normal, Ignored;
    var local, upstream, ignored := Normalize(localModels), Normalize(upstreamModels), Normalize(ignoredModels);
    var sources, targets := RedirectSets(mapping);
    var covered := SetOf(local) + targets;
    var add := KeepNotIgnored(upstream, covered, ignored, engine);
    var remove := KeepUncovered(local, sources + SetOf(upstream));
    NormalizeIsNormal(upstreamModels);
    NormalizeIsNormal(localModels);
    NormalIsDistinct(upstream);
    NormalIsDistinct(local);
    FilterIsUnseen(upstream, covered);
    FilterIsUnseen(local, sources + SetOf(upstream));
    NormalIsFixed(add);
    NormalIsFixed(remove);
    pendingAdd, pendingRemove := Normalize(add), Normalize(remove);
  }

  method RedirectSets(mapping: map<string, string>) returns (sources: set<string>, targets: set<string>)
    ensures sources == mapping.Keys && targets == mapping.Values
  {
    sources, targets := {}, {};
    var todo := mapping.Keys;
    while todo != {}
      invariant todo <= mapping.Keys && sources == mapping.Keys - todo
      invariant targets == set k | k in mapping.Keys - todo :: mapping[k]
      decreases |todo|
    {
      var source :| source in todo;
      sources := sources + {source};
      targets := targets + {mapping[source]};
      todo := todo - {source};
    }
  }

  /** The entries outside a set, repetitions and all. */
  function Outside(keys: seq<string>, covered: set<string>): seq<string> {
    if keys == [] then []
    else
      var before := Outside(keys[..|keys| - 1], covered);
      if keys[|keys| - 1] in covered then before else before + [keys[|keys| - 1]]
  }

  lemma {:induction false} FilterIsUnseen(keys: seq<string>, covered: set<string>)
    requires Distinct(keys)
    ensures Outside(keys, covered) == Unseen(keys, covered)
  {
    if keys != [] {
      var n := |keys| - 1;
      FilterIsUnseen(keys[..n], covered);
      UnseenIsAll(keys[..n], covered, keys[n]);
      NewLast(keys);
    }
  }

  method KeepUncovered(keys: seq<string>, covered: set<string>) returns (kept: seq<string>)
    ensures kept == Outside(keys, covered)
  {
    kept := [];
    for i := 0 to |keys|
      invariant kept == Outside(keys[..i], covered)
    {
      assert keys[..i + 1][..i] == keys[..i];
      if keys[i] !in covered {
        kept := kept + [keys[i]];
      }
    }
    assert keys[..|keys|] == keys;
  }

  method KeepNotIgnored(upstream: seq<string>, covered: set<string>, ignored: seq<string>, engine: Engine)
      returns (kept: seq<string>)
    ensures kept == NotIgnored(Outside(upstream, covered), ignored, engine)
  {
    hide Ignored;
    kept := [];
    for i := 0 to |upstream|
      invariant kept == NotIgnored(Outside(upstream[..i], covered), ignored, engine)
    {
      var before := Outside(upstream[..i], covered);
      assert upstream[..i + 1][..i] == upstream[..i] && (before + [upstream[i]])[..|before|] == before;
      if upstream[i] in covered || Ignored(upstream[i], ignored, engine) {
        continue;
      }
      kept := kept + [upstream[i]];
    }
    assert upstream[..|upstream|] == upstream;
  }

  // ---------------------------------------------------------------- the channel's state machine

  datatype Settings = Settings(detected: seq<string>, removed: seq<string>, ignored: seq<string>, lastCheck: int, autoSync: bool)

  /** The stored model text (names joined by commas) and the upstream-update settings. */
  datatype State = State(models: string, settings: Settings) {
    function Local(): seq<string> {
      Normalize(Parse(models, COMMA))
    }
  }

  /** What an administrator picks; only names that are pending count. */
  datatype Selection = Selection(add: seq<string>, ignore: seq<string>, remove: seq<string>) {
    function Adds(st: Settings): seq<string> { Intersect(add, Normalize(st.detected)) }
    function Ignores(st: Settings): seq<string> { Intersect(ignore, Normalize(st.detected)) }
    function Removes(st: Settings): seq<string> { Subtract(Intersect(remove, Normalize(st.removed)), Adds(st)) }
  }

  function Written(models: string, origin: seq<string>, next: seq<string>): string {
    if origin != next then Join(next, COMMA) else models
  }

  function AfterApply(s: State, pick: Selection, now: int): State {
    var st := s.settings;
    var next := ApplySelected(s.Local(), pick.Adds(st), pick.Removes(st));
    var ignored := Merge(st.ignored, pick.Ignores(st));
    State(Written(s.models, s.Local(), next),
          Settings(Subtract(Normalize(st.detected), pick.Adds(st) + pick.Ignores(st)),
                   Subtract(Normalize(st.removed), pick.Removes(st)),
                   if |pick.Adds(st)| > 0 then Subtract(ignored, pick.Adds(st)) else ignored,
                   now, st.autoSync))
  }

  /** A detection that succeeds without automatic application. */
  function AfterDetect(s: State, upstream: seq<string>, mapping: map<string, string>, engine: Engine, now: int): State {
    var local := Parse(s.models, COMMA);
    s.(settings := s.settings.(detected := PendingAdd(local, upstream, s.settings.ignored, mapping, engine),
                               removed := PendingRemove(local, upstream, mapping),
                               lastCheck := now))
  }

  /** A detection that adds what it finds at once. */
  function AfterSync(s: State, upstream: seq<string>, mapping: map<string, string>, engine: Engine, now: int): State {
    var d := AfterDetect(s, upstream, mapping, engine, now);
    var merged := Merge(s.Local(), d.settings.detected);
    State(if |merged| > |s.Local()| then Join(merged, COMMA) else s.models, d.settings.(detected := []))
  }

  /** Nothing pending is in the list already, so merging adds every pending name. */
  lemma SyncAddsAllPending(local: seq<string>, upstream: seq<string>, ignored: seq<string>, mapping: map<string, string>, engine: Engine)
    ensures var l, add := Normalize(local), PendingAdd(local, upstream, ignored, mapping, engine);
            Merge(l, add) == l + add && Normal(l + add)
  {
    hide PendingAdd, Normalize, Unseen, Normal, Ignored;
    var l, add := Normalize(local), PendingAdd(local, upstream, ignored, mapping, engine);
    Detected(local, upstream, ignored, mapping, engine);
    NormalizeIsNormal(local);
    NormalIsFixed(l);
    NormalIsFixed(add);
    PassAll(add, SetOf(l));
    Merged(l, add);
  }

  datatype Fetch = Failed | Fetched(upstream: seq<string>)

  function AfterCheck(s: State, force: bool, allowAutoApply: bool, minInterval: int, fetch: Fetch,
                      mapping: map<string, string>, engine: Engine, now: int): State
  {
    if !force && s.settings.lastCheck > 0 && now - s.settings.lastCheck < minInterval then s
    else match fetch
      case Failed => s.(settings := s.settings.(lastCheck := now))
      case Fetched(upstream) =>
        if allowAutoApply && s.settings.autoSync
           && |PendingAdd(Parse(s.models, COMMA), upstream, s.settings.ignored, mapping, engine)| > 0
        then AfterSync(s, upstream, mapping, engine, now)
        else AfterDetect(s, upstream, mapping, engine, now)
  }

  class Channel {
    var models: string
    var settings: Settings

    ghost function View(): State
      reads this
    {
      State(models, settings)
    }

    /** checkAndPersistChannelUpstreamModelUpdates; storing the result is taken to succeed. */
    method Check(force: bool, allowAutoApply: bool, minInterval: int, fetch: Fetch, mapping: map<string, string>,
                 engine: Engine, now: int) returns (modelsChanged: bool, autoAdded: nat)
      modifies this
      ensures View() == AfterCheck(old(View()), force, allowAutoApply, minInterval, fetch, mapping, engine, now)
      ensures modelsChanged <==> autoAdded > 0
      ensures var s := old(View());
              autoAdded == if (force || s.settings.lastCheck <= 0 || now - s.settings.lastCheck >= minInterval)
                              && fetch.Fetched? && allowAutoApply && s.settings.autoSync
                           then |PendingAdd(Parse(s.models, COMMA), fetch.upstream, s.settings.ignored, mapping, engine)| else 0
      ensures var before := old(settings);
              var throttled := !force && before.lastCheck > 0 && now - before.lastCheck < minInterval;
              && settings.lastCheck == (if throttled then before.lastCheck else now)
              && settings.ignored == before.ignored && settings.autoSync == before.autoSync
              && (throttled || fetch.Failed? ==> settings.detected == before.detected && settings.removed == before.removed)
      ensures !modelsChanged ==> models == old(models)
      ensures fetch.Fetched? && NoCommaPending(old(View()), fetch.upstream, mapping, engine) ==>
                (modelsChanged <==> View().Local() != old(View()).Local())
    {
      hide PendingAdd, PendingRemove, Normalize, Parse, Join, Merge, NoCommaPending;
      CheckGains(View(), force, allowAutoApply, minInterval, fetch, mapping, engine, now);
      modelsChanged, autoAdded := false, 0;
      if !force {
        if settings.lastCheck > 0 && now - settings.lastCheck < minInterval {
          return;
        }
      }
      if fetch == Failed {
        settings := settings.(lastCheck := now);
        return;
      }
      var local := Parse(models, COMMA);
      var pendingAdd, pendingRemove := CollectPending(local, fetch.upstream, settings.ignored, mapping, engine);
      settings := settings.(lastCheck := now);
      if allowAutoApply && settings.autoSync && |pendingAdd| > 0 {
        var originModels := Normalize(local);
        var mergedModels := MergeModelNames(originModels, pendingAdd);
        SyncAddsAllPending(local, fetch.upstream, settings.ignored, mapping, engine);
        if |mergedModels| > |originModels| {
          models := Join(mergedModels, COMMA);
          autoAdded := |mergedModels| - |originModels|;
          modelsChanged := true;
        }
        settings := settings.(detected := []);
      } else {
        settings := settings.(detected := pendingAdd);
      }
      settings := settings.(removed := pendingRemove);
    }

    /** applyChannelUpstreamModelUpdates; storing the result is taken to succeed. */
    method Apply(pick: Selection, now: int)
        returns (added: seq<string>, removed: seq<string>, remaining: seq<string>, remainingRemove: seq<string>, modelsChanged: bool)
      modifies this
      ensures View() == AfterApply(old(View()), pick, now)
      ensures added == pick.Adds(old(settings)) && removed == pick.Removes(old(settings))
      ensures remaining == settings.detected && remainingRemove == settings.removed
      ensures !modelsChanged ==> models == old(models)
      ensures modelsChanged <==> ApplyAlters(old(View()), pick)
      ensures settings.lastCheck == now && settings.autoSync == old(settings.autoSync)
    {
      ApplyChanges(View(), pick);
      hide Normalize, Parse, Join, Merge, Subtract, Intersect, ApplySelected;
      var pendingAdd, pendingRemove := Normalize(settings.detected), Normalize(settings.removed);
      var addModels := Intersect(pick.add, pendingAdd);
      var ignoreModels := Intersect(pick.ignore, pendingAdd);
      var removeModels := Intersect(pick.remove, pendingRemove);
      removeModels := Subtract(removeModels, addModels);
      var originModels := Normalize(Parse(models, COMMA));
      var nextModels := ApplySelected(originModels, addModels, removeModels);
      modelsChanged := originModels != nextModels;
      if modelsChanged {
        models := Join(nextModels, COMMA);
      }
      var ignored := MergeModelNames(settings.ignored, ignoreModels);
      if |addModels| > 0 {
        ignored := Subtract(ignored, addModels);
      }
      remaining := Subtract(pendingAdd, addModels + ignoreModels);
      remainingRemove := Subtract(pendingRemove, removeModels);
      settings := Settings(remaining, remainingRemove, ignored, now, settings.autoSync);
      added, removed := addModels, removeModels;
    }
  }

  // ---------------------------------------------------------------- what applying a selection does

  lemma {:induction false} NormalizeConcatSet(a: seq<string>, b: seq<string>)
    requires Normal(a) && Normal(b)
    ensures SetOf(Normalize(a + b)) == SetOf(a) + SetOf(b)
  {
    hide Unseen, TrimSpace;
    SetOfConcat(a, b);
    CleanIsTrimmed(a + b);
    SetOfUnseen(a + b, {});
  }

  /** The sets an apply works with: what is picked, what is left, what the lists become. */
  lemma ApplySets(s: State, pick: Selection, now: int)
    ensures var st, after := s.settings, AfterApply(s, pick, now);
            var d, r, a, i, x := SetOf(Normalize(st.detected)), SetOf(Normalize(st.removed)),
                                 SetOf(pick.Adds(st)), SetOf(pick.Ignores(st)), SetOf(pick.Removes(st));
            && Normal(pick.Adds(st)) && Normal(pick.Ignores(st)) && Normal(pick.Removes(st))
            && a == SetOf(Normalize(pick.add)) * d && i == SetOf(Normalize(pick.ignore)) * d
            && x == SetOf(Normalize(pick.remove)) * r - a
            && Normal(after.settings.detected) && SetOf(after.settings.detected) == d - a - i
            && Normal(after.settings.removed) && SetOf(after.settings.removed) == r - x
            && Normal(after.settings.ignored) && SetOf(after.settings.ignored) == SetOf(Normalize(st.ignored)) + i - a
  {
    var st := s.settings;
    var a, i, x := pick.Adds(st), pick.Ignores(st), pick.Removes(st);
    hide Normalize, Merge, Subtract, Intersect, Normal, SetOf, ApplySelected;
    var detected, removed, both := Normalize(st.detected), Normalize(st.removed), Intersect(pick.remove, Normalize(st.removed));
    NormalizeIsNormal(st.detected);
    NormalizeIsNormal(st.removed);
    NormalIsFixed(detected);
    NormalIsFixed(removed);
    Intersected(pick.add, detected);
    Intersected(pick.ignore, detected);
    Intersected(pick.remove, removed);
    NormalIsFixed(a);
    NormalIsFixed(i);
    NormalIsFixed(both);
    Subtracted(both, a);
    NormalIsFixed(x);
    NormalizeConcatSet(a, i);
    Subtracted(detected, a + i);
    Subtracted(removed, x);
    Merged(st.ignored, i);
    NormalIsFixed(Merge(st.ignored, i));
    Subtracted(Merge(st.ignored, i), a);
    if |a| == 0 { NoMembers(a); }
  }

  lemma NoMembers(keys: seq<string>)
    requires |keys| == 0
    ensures SetOf(keys) == {}
  {
  }

  /** Main result: applying any selection conserves the pending lists. Each pending addition ends up in
      exactly one of added, ignored only, or still pending; each pending removal in removed or still pending. */
  lemma ApplyConserves(s: State, pick: Selection, now: int)
    ensures var st, after := s.settings, AfterApply(s, pick, now);
            var added, ignoredOnly, left := SetOf(pick.Adds(st)), SetOf(pick.Ignores(st)) - SetOf(pick.Adds(st)), SetOf(after.settings.detected);
            && SetOf(Normalize(st.detected)) == added + ignoredOnly + left
            && added !! ignoredOnly && added !! left && ignoredOnly !! left
            && SetOf(after.settings.ignored) !! added && ignoredOnly <= SetOf(after.settings.ignored)
            && SetOf(Normalize(st.removed)) == SetOf(pick.Removes(st)) + SetOf(after.settings.removed)
            && SetOf(pick.Removes(st)) !! SetOf(after.settings.removed) && SetOf(pick.Removes(st)) !! added
  {
    hide Normalize, SetOf, AfterApply, Normal, Selection.Adds, Selection.Ignores, Selection.Removes;
    ApplySets(s, pick, now);
  }

  /** Main result: the new list is the surviving old names in their order, then the added ones in theirs. */
  lemma ApplyShape(s: State, pick: Selection)
    ensures var origin, add, remove := s.Local(), pick.Adds(s.settings), pick.Removes(s.settings);
            var next := ApplySelected(origin, add, remove);
            && next == Unseen(origin, SetOf(remove)) + Unseen(add, SetOf(origin))
            && Normal(next) && SetOf(next) == (SetOf(origin) - SetOf(remove)) + SetOf(add)
  {
    hide Normalize, SetOf, Normal, ApplySelected, Unseen, Selection.Adds, Selection.Ignores, Selection.Removes;
    NormalizeIsNormal(Parse(s.models, COMMA));
    ApplySets(s, pick, 0);
    var remove, add := pick.Removes(s.settings), pick.Adds(s.settings);
    ApplySelectedShape(s.Local(), add, remove);
    assert SetOf(remove) - SetOf(add) == SetOf(remove);
  }

  /** The selection adds a name that is not there or removes one that is. */
  ghost predicate ApplyAlters(s: State, pick: Selection) {
    || (exists k :: k in SetOf(pick.Adds(s.settings)) && k !in SetOf(s.Local()))
    || (exists k :: k in SetOf(pick.Removes(s.settings)) && k in SetOf(s.Local()))
  }

  lemma ApplyChanges(s: State, pick: Selection)
    ensures ApplySelected(s.Local(), pick.Adds(s.settings), pick.Removes(s.settings)) != s.Local() <==> ApplyAlters(s, pick)
  {
    hide Normalize, SetOf, Normal, ApplySelected, Unseen, Selection.Adds, Selection.Ignores, Selection.Removes, AfterApply;
    var origin, add, remove := s.Local(), pick.Adds(s.settings), pick.Removes(s.settings);
    ApplyShape(s, pick);
    ApplyConserves(s, pick, 0);
    NormalizeIsNormal(Parse(s.models, COMMA));
    if !ApplyAlters(s, pick) {
      assert SetOf(origin) !! SetOf(remove) && SetOf(add) <= SetOf(origin);
      PassAll(origin, SetOf(remove));
      SetOfUnseen(add, SetOf(origin));
      EmptyList(Unseen(add, SetOf(origin)));
    }
  }

  // ---------------------------------------------------------------- storing names separated by commas

  ghost predicate CommaFree(names: seq<string>) {
    Free(names, COMMA)
  }

  lemma {:induction false} TrimmedIsFree(lines: seq<string>)
    requires CommaFree(lines)
    ensures CommaFree(Trimmed(lines))
  {
    hide TrimSpace;
    if lines != [] {
      var n := |lines| - 1;
      TrimmedIsFree(lines[..n]);
      TrimSpaceFacts(lines[n]);
    }
  }

  lemma LocalIsFree(s: State)
    ensures forall k :: k in SetOf(s.Local()) ==> COMMA !in k
  {
    hide Unseen, Trimmed, Parse;
    var lines := Parse(s.models, COMMA);
    TrimmedIsFree(lines);
    forall k | k in s.Local() ensures COMMA !in k {
      UnseenIsAll(Trimmed(lines), {}, k);
    }
  }

  lemma StoredNames(models: string, names: seq<string>)
    requires Normal(names) && models == Join(names, COMMA) && forall k :: k in SetOf(names) ==> COMMA !in k
    ensures Normalize(Parse(models, COMMA)) == names
  {
    hide Join, Parse, Normalize, TrimSpace;
    assert forall i :: 0 <= i < |names| ==> names[i] in SetOf(names);
    ParseJoin(names, COMMA);
    NormalIsFixed(names);
  }

  /** After an apply the stored text holds the new list, as long as no added name has a comma. */
  lemma LocalAfterApply(s: State, pick: Selection, now: int)
    requires forall k :: k in SetOf(pick.Adds(s.settings)) ==> COMMA !in k
    ensures AfterApply(s, pick, now).Local() == ApplySelected(s.Local(), pick.Adds(s.settings), pick.Removes(s.settings))
  {
    hide Normalize, SetOf, Normal, ApplySelected, Unseen, Selection.Adds, Selection.Ignores, Selection.Removes, Parse, Join;
    ApplyShape(s, pick);
    LocalIsFree(s);
    var next := ApplySelected(s.Local(), pick.Adds(s.settings), pick.Removes(s.settings));
    StoredNames(Join(next, COMMA), next);
  }

  // ---------------------------------------------------------------- automatic synchronisation

  /** No name pending to be added has a comma. */
  ghost predicate NoCommaPending(s: State, upstream: seq<string>, mapping: map<string, string>, engine: Engine) {
    forall k :: k in SetOf(PendingAdd(Parse(s.models, COMMA), upstream, s.settings.ignored, mapping, engine)) ==> COMMA !in k
  }

  /** The stored text gets the pending names behind the old ones. */
  lemma SyncLocal(s: State, upstream: seq<string>, mapping: map<string, string>, engine: Engine, now: int)
    requires NoCommaPending(s, upstream, mapping, engine)
    ensures var add := PendingAdd(Parse(s.models, COMMA), upstream, s.settings.ignored, mapping, engine);
            AfterSync(s, upstream, mapping, engine, now).Local() == s.Local() + add
  {
    hide Normalize, SetOf, Normal, PendingAdd, PendingRemove, Parse, Join;
    var local := Parse(s.models, COMMA);
    var add := PendingAdd(local, upstream, s.settings.ignored, mapping, engine);
    SyncAddsAllPending(local, upstream, s.settings.ignored, mapping, engine);
    LocalIsFree(s);
    SetOfConcat(s.Local(), add);
    StoredNames(Join(s.Local() + add, COMMA), s.Local() + add);
    if |add| == 0 { assert s.Local() + add == s.Local(); }
  }

  lemma SyncChangesText(s: State, upstream: seq<string>, mapping: map<string, string>, engine: Engine, now: int)
    requires NoCommaPending(s, upstream, mapping, engine)
    ensures var add := PendingAdd(Parse(s.models, COMMA), upstream, s.settings.ignored, mapping, engine);
            && (|add| > 0 ==> AfterSync(s, upstream, mapping, engine, now).Local() != s.Local())
            && AfterDetect(s, upstream, mapping, engine, now).Local() == s.Local()
  {
    hide Normalize, SetOf, PendingAdd, PendingRemove, Parse, AfterSync, NoCommaPending;
    SyncLocal(s, upstream, mapping, engine, now);
    var add := PendingAdd(Parse(s.models, COMMA), upstream, s.settings.ignored, mapping, engine);
    assert |s.Local() + add| == |s.Local()| + |add|;
  }

  /** When a check changes the names the stored text holds. */
  lemma CheckGains(s: State, force: bool, allowAutoApply: bool, minInterval: int, fetch: Fetch,
                   mapping: map<string, string>, engine: Engine, now: int)
    ensures fetch.Fetched? && NoCommaPending(s, fetch.upstream, mapping, engine) ==>
              (AfterCheck(s, force, allowAutoApply, minInterval, fetch, mapping, engine, now).Local() != s.Local()
               <==> (force || s.settings.lastCheck <= 0 || now - s.settings.lastCheck >= minInterval)
                    && allowAutoApply && s.settings.autoSync
                    && |PendingAdd(Parse(s.models, COMMA), fetch.upstream, s.settings.ignored, mapping, engine)| > 0)
  {
    hide Normalize, SetOf, PendingAdd, PendingRemove, Parse, AfterSync, NoCommaPending;
    if fetch.Fetched? && NoCommaPending(s, fetch.upstream, mapping, engine) {
      SyncChangesText(s, fetch.upstream, mapping, engine, now);
    }
  }

  /** With all its names in the list, an upstream has nothing to add. */
  lemma NothingNew(s: State, t: State, upstream: seq<string>, mapping: map<string, string>, engine: Engine)
    requires t.settings.ignored == s.settings.ignored
    requires t.Local() == s.Local() + PendingAdd(Parse(s.models, COMMA), upstream, s.settings.ignored, mapping, engine)
    ensures |PendingAdd(Parse(t.models, COMMA), upstream, t.settings.ignored, mapping, engine)| == 0
  {
    hide Normalize, SetOf, Normal, Ignored, PendingAdd, PendingRemove, Parse;
    var ignored := s.settings.ignored;
    var add := PendingAdd(Parse(s.models, COMMA), upstream, ignored, mapping, engine);
    var again := PendingAdd(Parse(t.models, COMMA), upstream, ignored, mapping, engine);
    Detected(Parse(s.models, COMMA), upstream, ignored, mapping, engine);
    Detected(Parse(t.models, COMMA), upstream, ignored, mapping, engine);
    SetOfConcat(s.Local(), add);
    assert SetOf(again) == {};
    EmptyList(again);
  }

  /** Main result: a check that may add names by itself puts every pending name behind the stored ones, leaves
      none pending, records the removals it found, and keeps the ignore list; a second one adds nothing. */
  lemma SyncStores(s: State, force: bool, minInterval: int, upstream: seq<string>, mapping: map<string, string>,
                   engine: Engine, now: int, later: int)
    requires s.settings.autoSync && NoCommaPending(s, upstream, mapping, engine)
    requires force || s.settings.lastCheck <= 0 || now - s.settings.lastCheck >= minInterval
    ensures var local := Parse(s.models, COMMA);
            var add := PendingAdd(local, upstream, s.settings.ignored, mapping, engine);
            var once := AfterCheck(s, force, true, minInterval, Fetched(upstream), mapping, engine, now);
            var twice := AfterCheck(once, true, true, minInterval, Fetched(upstream), mapping, engine, later);
            && once.Local() == s.Local() + add
            && once.settings == Settings([], PendingRemove(local, upstream, mapping), s.settings.ignored, now, true)
            && twice.models == once.models && twice.settings.detected == []
  {
    hide Normalize, SetOf, PendingAdd, PendingRemove, Parse, NoCommaPending, Join, Merge;
    var add := PendingAdd(Parse(s.models, COMMA), upstream, s.settings.ignored, mapping, engine);
    SyncLocal(s, upstream, mapping, engine, now);
    if |add| == 0 { assert s.Local() + add == s.Local(); }
    NothingNew(s, AfterCheck(s, force, true, minInterval, Fetched(upstream), mapping, engine, now), upstream, mapping, engine);
  }

  // ---------------------------------------------------------------- convergence

  /** A selection that deals with everything pending. */
  ghost predicate Covers(pick: Selection, st: Settings) {
    && SetOf(Normalize(st.detected)) <= SetOf(Normalize(pick.add)) + SetOf(Normalize(pick.ignore))
    && SetOf(Normalize(st.removed)) <= SetOf(Normalize(pick.remove))
  }

  /** One detection, one apply and one more detection against the same upstream. */
  ghost function Round(s: State, pick: Selection, upstream: seq<string>, mapping: map<string, string>, engine: Engine): State {
    AfterDetect(AfterApply(AfterDetect(s, upstream, mapping, engine, 0), pick, 0), upstream, mapping, engine, 0)
  }

  ghost predicate Settled(s: State) {
    |s.settings.detected| == 0 && |s.settings.removed| == 0
  }

  ghost predicate AlwaysConverges(s: State, upstream: seq<string>, mapping: map<string, string>, engine: Engine) {
    forall pick: Selection ::
      Covers(pick, AfterDetect(s, upstream, mapping, engine, 0).settings) ==> Settled(Round(s, pick, upstream, mapping, engine))
  }

  /** Every pending name can be stored and, if it reads as a regular expression, matches itself, so that it
      can be ignored under its own name. */
  ghost predicate Representable(s: State, upstream: seq<string>, mapping: map<string, string>, engine: Engine) {
    forall u :: u in SetOf(AfterDetect(s, upstream, mapping, engine, 0).settings.detected) ==>
      COMMA !in u && (HasRegexPrefix(u) ==> engine(TrimSpace(u[|REGEX|..]), u))
  }

  /** Ignoring as a question about the set of entries. */
  lemma IgnoredSet(name: string, ignored: seq<string>, engine: Engine)
    ensures Ignored(name, ignored, engine) <==> exists e :: e in SetOf(ignored) && IgnoredBy(e, name, engine)
  {
    hide IgnoredBy;
    if e :| e in SetOf(ignored) && IgnoredBy(e, name, engine) {
      var i :| 0 <= i < |ignored| && ignored[i] == e;
    }
    if Ignored(name, ignored, engine) {
      var i :| 0 <= i < |ignored| && IgnoredBy(ignored[i], name, engine);
      assert ignored[i] in SetOf(ignored);
    }
  }

  lemma IgnoresItself(name: string, ignored: seq<string>, engine: Engine)
    requires name in SetOf(ignored) && (HasRegexPrefix(name) ==> engine(TrimSpace(name[|REGEX|..]), name))
    ensures Ignored(name, ignored, engine)
  {
    hide TrimSpace;
    IgnoredSet(name, ignored, engine);
    assert IgnoredBy(name, name, engine);
  }

  /** A name ignored before an apply is still ignored, if no added name was an entry. */
  lemma StillIgnored(name: string, before: seq<string>, after: seq<string>, added: set<string>, engine: Engine)
    requires Ignored(name, before, engine) && SetOf(before) - added <= SetOf(after)
    requires added !! SetOf(before)
    ensures Ignored(name, after, engine)
  {
    IgnoredSet(name, before, engine);
    var e :| e in SetOf(before) && IgnoredBy(e, name, engine);
    assert e in SetOf(after);
    IgnoredSet(name, after, engine);
  }

  lemma EmptyList(keys: seq<string>)
    requires SetOf(keys) == {}
    ensures |keys| == 0
  {
    if |keys| > 0 { HasMembers(keys); }
  }

  lemma HasMembers(keys: seq<string>)
    requires |keys| > 0
    ensures SetOf(keys) != {}
  {
    assert keys[0] in SetOf(keys);
  }

  /** What one detection leaves in the settings, as sets. */
  lemma DetectSets(s: State, upstream: seq<string>, mapping: map<string, string>, engine: Engine)
    ensures var d, local, ups, ignored := AfterDetect(s, upstream, mapping, engine, 0), SetOf(s.Local()), SetOf(Normalize(upstream)), Normalize(s.settings.ignored);
            && d.models == s.models && d.settings.ignored == s.settings.ignored
            && Normalize(d.settings.detected) == d.settings.detected && Normalize(d.settings.removed) == d.settings.removed
            && SetOf(d.settings.removed) == local - mapping.Keys - ups
            && forall k :: k in SetOf(d.settings.detected) <==>
                 k in ups && k !in local && k !in mapping.Values && !Ignored(k, ignored, engine)
  {
    hide Normalize, SetOf, Normal, Ignored, PendingAdd, PendingRemove, Parse;
    var local := Parse(s.models, COMMA);
    Detected(local, upstream, s.settings.ignored, mapping, engine);
    NormalIsFixed(PendingAdd(local, upstream, s.settings.ignored, mapping, engine));
    NormalIsFixed(PendingRemove(local, upstream, mapping));
  }

  /** No pending name that could ignore itself is an entry of the ignore list. */
  lemma PendingIsNoEntry(s: State, upstream: seq<string>, mapping: map<string, string>, engine: Engine)
    requires Representable(s, upstream, mapping, engine)
    ensures SetOf(AfterDetect(s, upstream, mapping, engine, 0).settings.detected) !! SetOf(Normalize(s.settings.ignored))
  {
    hide Normalize, SetOf, Ignored, PendingAdd, PendingRemove, Parse, HasRegexPrefix, TrimSpace;
    var d := AfterDetect(s, upstream, mapping, engine, 0);
    DetectSets(s, upstream, mapping, engine);
    forall k | k in SetOf(d.settings.detected) ensures k !in SetOf(Normalize(s.settings.ignored)) {
      if k in SetOf(Normalize(s.settings.ignored)) {
        IgnoresItself(k, Normalize(s.settings.ignored), engine);
        assert false;
      }
    }
  }

  /** The list and the ignore list after one detection and an apply, as sets. */
  lemma AppliedSets(s: State, pick: Selection, upstream: seq<string>, mapping: map<string, string>, engine: Engine)
    requires var d := AfterDetect(s, upstream, mapping, engine, 0);
             forall k :: k in SetOf(pick.Adds(d.settings)) ==> COMMA !in k
    ensures var d := AfterDetect(s, upstream, mapping, engine, 0);
            var a, x, i := SetOf(pick.Adds(d.settings)), SetOf(pick.Removes(d.settings)), SetOf(pick.Ignores(d.settings));
            var after := AfterApply(d, pick, 0);
            && a == SetOf(Normalize(pick.add)) * SetOf(d.settings.detected)
            && i == SetOf(Normalize(pick.ignore)) * SetOf(d.settings.detected)
            && x == SetOf(Normalize(pick.remove)) * SetOf(d.settings.removed) - a
            && SetOf(after.Local()) == (SetOf(s.Local()) - x) + a
            && SetOf(Normalize(after.settings.ignored)) == SetOf(Normalize(s.settings.ignored)) + i - a
  {
    hide Normalize, SetOf, Normal, Ignored, PendingAdd, PendingRemove, Parse, ApplySelected, AfterApply, Unseen,
      Selection.Adds, Selection.Ignores, Selection.Removes;
    var d := AfterDetect(s, upstream, mapping, engine, 0);
    DetectSets(s, upstream, mapping, engine);
    ApplySets(d, pick, 0);
    ApplyShape(d, pick);
    LocalAfterApply(d, pick, 0);
    NormalIsFixed(AfterApply(d, pick, 0).settings.ignored);
  }

  lemma NothingLeftToAdd(s: State, pick: Selection, upstream: seq<string>, mapping: map<string, string>, engine: Engine, k: string)
    requires Representable(s, upstream, mapping, engine) && Covers(pick, AfterDetect(s, upstream, mapping, engine, 0).settings)
    ensures k !in SetOf(Round(s, pick, upstream, mapping, engine).settings.detected)
  {
    hide Normalize, SetOf, Normal, Ignored, PendingAdd, PendingRemove, Parse, AfterApply, HasRegexPrefix, TrimSpace,
      Selection.Adds, Selection.Ignores, Selection.Removes;
    var d := AfterDetect(s, upstream, mapping, engine, 0);
    DetectSets(s, upstream, mapping, engine);
    PendingIsNoEntry(s, upstream, mapping, engine);
    IntersectsDetected(d, pick);
    AppliedSets(s, pick, upstream, mapping, engine);
    var after := AfterApply(d, pick, 0);
    DetectSets(after, upstream, mapping, engine);
    var before, now, added := Normalize(s.settings.ignored), Normalize(after.settings.ignored), SetOf(pick.Adds(d.settings));
    if k in SetOf(Round(s, pick, upstream, mapping, engine).settings.detected) {
      if k in SetOf(d.settings.detected) {
        IgnoresItself(k, now, engine);
      } else {
        StillIgnored(k, before, now, added, engine);
      }
      assert false;
    }
  }

  lemma IntersectsDetected(d: State, pick: Selection)
    requires Normalize(d.settings.detected) == d.settings.detected
    ensures SetOf(pick.Adds(d.settings)) <= SetOf(d.settings.detected)
  {
    hide Normalize, SetOf, Normal, Selection.Adds, Selection.Ignores, Selection.Removes, AfterApply;
    ApplySets(d, pick, 0);
  }

  lemma NothingLeftToRemove(s: State, pick: Selection, upstream: seq<string>, mapping: map<string, string>, engine: Engine)
    requires Representable(s, upstream, mapping, engine) && Covers(pick, AfterDetect(s, upstream, mapping, engine, 0).settings)
    ensures SetOf(Round(s, pick, upstream, mapping, engine).settings.removed) == {}
  {
    hide Normalize, SetOf, Normal, Ignored, PendingAdd, PendingRemove, Parse, AfterApply, HasRegexPrefix,
      Selection.Adds, Selection.Ignores, Selection.Removes;
    var d := AfterDetect(s, upstream, mapping, engine, 0);
    DetectSets(s, upstream, mapping, engine);
    IntersectsDetected(d, pick);
    AppliedSets(s, pick, upstream, mapping, engine);
    DetectSets(AfterApply(d, pick, 0), upstream, mapping, engine);
    assert SetOf(pick.Adds(d.settings)) <= SetOf(Normalize(upstream));
    assert SetOf(pick.Removes(d.settings)) == SetOf(d.settings.removed) - SetOf(pick.Adds(d.settings));
    assert SetOf(d.settings.removed) * SetOf(pick.Adds(d.settings)) == {};
  }

  lemma Converges(s: State, pick: Selection, upstream: seq<string>, mapping: map<string, string>, engine: Engine)
    requires Representable(s, upstream, mapping, engine) && Covers(pick, AfterDetect(s, upstream, mapping, engine, 0).settings)
    ensures Settled(Round(s, pick, upstream, mapping, engine))
  {
    hide Round, SetOf, Representable, Covers, AfterDetect;
    var st := Round(s, pick, upstream, mapping, engine).settings;
    forall k ensures k !in SetOf(st.detected) {
      NothingLeftToAdd(s, pick, upstream, mapping, engine, k);
    }
    assert SetOf(st.detected) == {};
    NothingLeftToRemove(s, pick, upstream, mapping, engine);
    EmptyList(st.detected);
    EmptyList(st.removed);
  }

  // ---------------------------------------------------------------- when it does not converge

  lemma StillThere(keys: seq<string>, k: string)
    requires k in SetOf(keys)
    ensures |keys| > 0
  {
  }

  /** With no entry that ignores a name, there is none among fewer. */
  lemma FewerEntries(name: string, before: seq<string>, after: seq<string>, u: string, engine: Engine)
    requires !Ignored(name, before, engine) && SetOf(after) <= SetOf(before) + {u} && !IgnoredBy(u, name, engine)
    ensures !Ignored(name, after, engine)
  {
    hide IgnoredBy, SetOf;
    IgnoredSet(name, before, engine);
    IgnoredSet(name, after, engine);
  }

  /** A name that stays out of the list and out of every entry's reach is detected again. */
  lemma DetectedAgain(s: State, pick: Selection, upstream: seq<string>, mapping: map<string, string>, engine: Engine, u: string)
    requires var d := AfterDetect(s, upstream, mapping, engine, 0); var after := AfterApply(d, pick, 0);
             && u in SetOf(d.settings.detected) && u !in SetOf(after.Local())
             && !Ignored(u, Normalize(after.settings.ignored), engine)
    ensures !Settled(Round(s, pick, upstream, mapping, engine))
  {
    hide Normalize, SetOf, Ignored, PendingAdd, PendingRemove, Parse, AfterApply;
    var after := AfterApply(AfterDetect(s, upstream, mapping, engine, 0), pick, 0);
    DetectSets(s, upstream, mapping, engine);
    DetectSets(after, upstream, mapping, engine);
    StillThere(Round(s, pick, upstream, mapping, engine).settings.detected, u);
  }

  /** Ignoring a name that reads as a regular expression and does not match itself does not silence it. */
  lemma RegexNameStaysPending(s: State, upstream: seq<string>, mapping: map<string, string>, engine: Engine, u: string)
      returns (pick: Selection)
    requires var d := AfterDetect(s, upstream, mapping, engine, 0);
             u in SetOf(d.settings.detected) && forall k :: k in SetOf(d.settings.detected) ==> COMMA !in k
    requires HasRegexPrefix(u) && !engine(TrimSpace(u[|REGEX|..]), u)
    ensures Covers(pick, AfterDetect(s, upstream, mapping, engine, 0).settings)
    ensures !Settled(Round(s, pick, upstream, mapping, engine))
  {
    hide Round, Settled, Normalize, SetOf, Ignored, AfterDetect, AfterApply, TrimSpace, HasRegexPrefix, Unseen,
      Selection.Adds, Selection.Ignores, Selection.Removes, State.Local;
    var d := AfterDetect(s, upstream, mapping, engine, 0);
    DetectSets(s, upstream, mapping, engine);
    pick := Selection(Unseen(d.settings.detected, {u}), [u], d.settings.removed);
    AllButOneAdded(d.settings, pick, u);
    AppliedSets(s, pick, upstream, mapping, engine);
    var after := AfterApply(d, pick, 0);
    NotItsOwnEntry(u, engine);
    FewerEntries(u, Normalize(s.settings.ignored), Normalize(after.settings.ignored), u, engine);
    DetectedAgain(s, pick, upstream, mapping, engine, u);
  }

  lemma NotItsOwnEntry(u: string, engine: Engine)
    requires HasRegexPrefix(u) && !engine(TrimSpace(u[|REGEX|..]), u)
    ensures !IgnoredBy(u, u, engine)
  {
    hide TrimSpace;
  }

  /** The selection that ignores one pending name and adds the others. */
  lemma AllButOneAdded(st: Settings, pick: Selection, u: string)
    requires Normalize(st.detected) == st.detected && Normalize(st.removed) == st.removed && u in SetOf(st.detected)
    requires pick == Selection(Unseen(st.detected, {u}), [u], st.removed)
    ensures Covers(pick, st)
    ensures SetOf(Normalize(pick.add)) == SetOf(st.detected) - {u}
    ensures SetOf(Normalize(pick.ignore)) * SetOf(st.detected) == {u}
    ensures SetOf(pick.Adds(st)) == SetOf(st.detected) - {u}
  {
    hide Unseen, Normalize, Normal, SetOf, Trimmed, Selection.Adds, Within;
    NormalizeIsNormal(st.detected);
    UnseenIsNormal(st.detected, {u});
    SetOfUnseen(st.detected, {u});
    NormalIsFixed(pick.add);
    OneName(st.detected, u);
    AddsAre(st, pick);
  }

  lemma AddsAre(st: Settings, pick: Selection)
    ensures SetOf(pick.Adds(st)) == SetOf(Normalize(pick.add)) * SetOf(Normalize(Normalize(st.detected)))
  {
    hide Normalize, SetOf, Intersect;
    Intersected(pick.add, Normalize(st.detected));
  }

  lemma OneName(names: seq<string>, u: string)
    requires Normal(names) && u in SetOf(names)
    ensures SetOf(Normalize([u])) == {u}
  {
    hide Normalize, TrimSpace;
    assert Normal([u]);
    NormalIsFixed([u]);
    assert SetOf([u]) == {u};
  }

  /** Adding a name with a comma stores its pieces, so the name itself is still missing. */
  lemma CommaNameStaysPending(s: State, upstream: seq<string>, mapping: map<string, string>, engine: Engine, u: string)
      returns (pick: Selection)
    requires u in SetOf(AfterDetect(s, upstream, mapping, engine, 0).settings.detected) && COMMA in u
    ensures Covers(pick, AfterDetect(s, upstream, mapping, engine, 0).settings)
    ensures !Settled(Round(s, pick, upstream, mapping, engine))
  {
    hide Round, Settled, Normalize, SetOf, Ignored, AfterDetect, AfterApply,
      Selection.Adds, Selection.Ignores, Selection.Removes, State.Local;
    var d := AfterDetect(s, upstream, mapping, engine, 0);
    DetectSets(s, upstream, mapping, engine);
    pick := Selection(d.settings.detected, [], d.settings.removed);
    var after := AfterApply(d, pick, 0);
    NothingIgnored(d, pick);
    LocalIsFree(after);
    IgnoredSet(u, Normalize(s.settings.ignored), engine);
    IgnoredSet(u, Normalize(after.settings.ignored), engine);
    DetectedAgain(s, pick, upstream, mapping, engine, u);
  }

  lemma NothingIgnored(d: State, pick: Selection)
    requires |pick.ignore| == 0
    ensures SetOf(Normalize(AfterApply(d, pick, 0).settings.ignored)) <= SetOf(Normalize(d.settings.ignored))
  {
    assert SetOf(Normalize(pick.ignore)) == {};
    hide Normalize, SetOf, Normal, AfterApply, Selection.Adds, Selection.Ignores, Selection.Removes;
    ApplySets(d, pick, 0);
    NormalIsFixed(AfterApply(d, pick, 0).settings.ignored);
  }

  /** Main result: after one detection, every apply that covers everything pending leaves nothing pending, if
      and only if every pending name is free of commas and, if it reads as a regular expression, matches it. */
  lemma ConvergesExactly(s: State, upstream: seq<string>, mapping: map<string, string>, engine: Engine)
    ensures AlwaysConverges(s, upstream, mapping, engine) <==> Representable(s, upstream, mapping, engine)
  {
    hide Covers, Settled, Round, AfterDetect, SetOf, TrimSpace;
    if Representable(s, upstream, mapping, engine) {
      forall pick: Selection | Covers(pick, AfterDetect(s, upstream, mapping, engine, 0).settings)
        ensures Settled(Round(s, pick, upstream, mapping, engine))
      {
        Converges(s, pick, upstream, mapping, engine);
      }
    } else {
      var detected := AfterDetect(s, upstream, mapping, engine, 0).settings.detected;
      var pick;
      if u :| u in SetOf(detected) && COMMA in u {
        pick := CommaNameStaysPending(s, upstream, mapping, engine, u);
      } else {
        var u :| u in SetOf(detected) && HasRegexPrefix(u) && !engine(TrimSpace(u[|REGEX|..]), u);
        pick := RegexNameStaysPending(s, upstream, mapping, engine, u);
      }
    }
  }
}
