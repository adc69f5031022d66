/** What a merge does to an array, key by key, and when a merge fails. */
module MergeProperties {
  import opened Outcomes
  import opened OrderedMaps
  import opened Values
  import opened TemplateMerge

  /** Processing an original entry with key `k` assigns or unsets key `K`:
      a raw key stores under its stripped key (and unsets itself), any other
      key except `events` stores its merged value. */
  predicate Writes(k: string, K: string)
  {
    (IsRawKey(k) && StripRaw(k) == K) || (k == K && K != EventsKey)
  }

  /** The index of the last original entry that writes `K`, if any. */
  ghost function LastWriter(es: OrderedMap<Value>, K: string): (p: Option<nat>)
    ensures p.Some? ==> p.value < |es| && Writes(es[p.value].0, K)
                        && forall q :: p.value < q < |es| ==> !Writes(es[q].0, K)
    ensures p.None? ==> forall q :: 0 <= q < |es| ==> !Writes(es[q].0, K)
  {
    if es == [] then None
    else if Writes(es[|es| - 1].0, K) then Some(|es| - 1)
    else LastWriter(es[..|es| - 1], K)
  }

  /** Reference semantics of the array branch, one key at a time: the last
      write to a key decides it, and a key nobody writes keeps its original
      value. */
  ghost function ExpectedLookup(es: OrderedMap<Value>, K: string, vars: Bindings, render: Renderer, try: bool)
    : Option<Value>
  {
    match LastWriter(es, K)
    case None => Lookup(es, K)
    case Some(p) => WrittenBy(es, p, K, vars, render, try)
  }

  /** What original entry `p` leaves under `K` when it writes `K`: a raw key
      its unrendered value, a plain key its merged value (nothing if that
      merge failed), and a plain key that ends in `|raw` nothing, since the
      raw branch unsets it. */
  ghost function WrittenBy(es: OrderedMap<Value>, p: nat, K: string, vars: Bindings, render: Renderer, try: bool)
    : Option<Value>
    requires p < |es|
  {
    if IsRawKey(es[p].0) && StripRaw(es[p].0) == K then Some(es[p].1)
    else if IsRawKey(K) then None
    else
      match MergeValue(es[p].1, vars, render, try)
      case Ok(v) => Some(v)
      case Err(_) => None
  }

  lemma {:induction false} NoLaterWriterKeeps(parent: Value, i: nat, acc: OrderedMap<Value>, K: string,
                                              vars: Bindings, render: Renderer, try: bool)
    requires parent.Arr? && i <= |parent.entries|
    requires forall q :: i <= q < |parent.entries| ==> !Writes(parent.entries[q].0, K)
    requires MergeArrayFrom(parent, i, acc, vars, render, try).Ok?
    ensures Lookup(MergeArrayFrom(parent, i, acc, vars, render, try).value, K) == Lookup(acc, K)
    decreases |parent.entries| - i
  {
    if i < |parent.entries| {
      var next := MergeEntry(parent.entries[i].0, parent.entries[i].1, acc, vars, render, try).value;
      EntryLeavesKey(parent.entries[i].0, parent.entries[i].1, acc, K, vars, render, try);
      NoLaterWriterKeeps(parent, i + 1, next, K, vars, render, try);
    }
  }

  /** An entry that does not write `K` leaves `K` as it was. */
  lemma EntryLeavesKey(k: string, v: Value, acc: OrderedMap<Value>, K: string, vars: Bindings, render: Renderer, try: bool)
    requires !Writes(k, K)
    requires MergeEntry(k, v, acc, vars, render, try).Ok?
    ensures Lookup(MergeEntry(k, v, acc, vars, render, try).value, K) == Lookup(acc, K)
  {
    if IsRawKey(k) {
      assert Lookup(Put(acc, StripRaw(k), v), K) == Lookup(acc, K);
    }
  }

  lemma LastWriterDecides(parent: Value, i: nat, acc: OrderedMap<Value>, K: string, p: nat,
                          vars: Bindings, render: Renderer, try: bool)
    requires parent.Arr? && i <= p < |parent.entries|
    requires Writes(parent.entries[p].0, K)
    requires forall q :: p < q < |parent.entries| ==> !Writes(parent.entries[q].0, K)
    requires MergeArrayFrom(parent, i, acc, vars, render, try).Ok?
    ensures Lookup(MergeArrayFrom(parent, i, acc, vars, render, try).value, K)
            == WrittenBy(parent.entries, p, K, vars, render, try)
  {
    var accP := AdvanceTo(parent, i, acc, p, vars, render, try);
    AtLastWriter(parent, accP, K, p, vars, render, try);
  }

  /** Running the loop from entry `i` is running it from a later entry `p`
      with the accumulator it has built by then. */
  lemma {:induction false} AdvanceTo(parent: Value, i: nat, acc: OrderedMap<Value>, p: nat,
                                     vars: Bindings, render: Renderer, try: bool)
    returns (accP: OrderedMap<Value>)
    requires parent.Arr? && i <= p <= |parent.entries|
    requires MergeArrayFrom(parent, i, acc, vars, render, try).Ok?
    ensures MergeArrayFrom(parent, i, acc, vars, render, try) == MergeArrayFrom(parent, p, accP, vars, render, try)
    decreases p - i
  {
    if i == p {
      accP := acc;
    } else {
      var next := MergeEntry(parent.entries[i].0, parent.entries[i].1, acc, vars, render, try).value;
      accP := AdvanceTo(parent, i + 1, next, p, vars, render, try);
    }
  }

  /** At the last writer of `K`, that entry's write survives to the end. */
  lemma AtLastWriter(parent: Value, acc: OrderedMap<Value>, K: string, p: nat,
                     vars: Bindings, render: Renderer, try: bool)
    requires parent.Arr? && p < |parent.entries|
    requires Writes(parent.entries[p].0, K)
    requires forall q :: p < q < |parent.entries| ==> !Writes(parent.entries[q].0, K)
    requires MergeArrayFrom(parent, p, acc, vars, render, try).Ok?
    ensures Lookup(MergeArrayFrom(parent, p, acc, vars, render, try).value, K)
            == WrittenBy(parent.entries, p, K, vars, render, try)
  {
    var es := parent.entries;
    var k := es[p].0;
    var v := es[p].1;
    if IsRawKey(k) {
      var next := Remove(Put(acc, StripRaw(k), v), k);
      assert MergeArrayFrom(parent, p, acc, vars, render, try) == MergeArrayFrom(parent, p + 1, next, vars, render, try);
      NoLaterWriterKeeps(parent, p + 1, next, K, vars, render, try);
      if StripRaw(k) == K {
        assert Lookup(next, K) == Some(v);
      } else {
        assert k == K;
      }
    } else {
      var merged := MergeValue(v, vars, render, try).value;
      var next := Put(acc, k, merged);
      assert MergeArrayFrom(parent, p, acc, vars, render, try) == MergeArrayFrom(parent, p + 1, next, vars, render, try);
      NoLaterWriterKeeps(parent, p + 1, next, K, vars, render, try);
    }
  }

  lemma LastWriterIs(es: OrderedMap<Value>, K: string, p: nat)
    requires p < |es| && Writes(es[p].0, K)
    requires forall q :: p < q < |es| ==> !Writes(es[q].0, K)
    ensures LastWriter(es, K) == Some(p)
  {
  }

  /** The array branch agrees with the key-by-key reference semantics. */
  lemma MergeArrayMatchesReference(es: OrderedMap<Value>, vars: Bindings, render: Renderer, try: bool, K: string)
    requires MergeValue(Arr(es), vars, render, try).Ok?
    ensures Lookup(MergeValue(Arr(es), vars, render, try).value.entries, K) == ExpectedLookup(es, K, vars, render, try)
  {
    match LastWriter(es, K)
    case None =>
      NoLaterWriterKeeps(Arr(es), 0, es, K, vars, render, try);
    case Some(p) =>
      LastWriterDecides(Arr(es), 0, es, K, p, vars, render, try);
  }

  lemma RawStripEquation(k: string, K: string)
    requires IsRawKey(k)
    ensures StripRaw(k) == K <==> k == K + RawSuffix
  {
    if k == K + RawSuffix {
      assert StripRaw(k) + RawSuffix == K + RawSuffix;
      assert StripRaw(k) == (StripRaw(k) + RawSuffix)[..|StripRaw(k)|];
      assert K == (K + RawSuffix)[..|K|];
    }
  }

  /** The array branch keeps a PHP array well formed: no key twice. */
  lemma {:induction false} MergeArrayKeepsKeysUnique(parent: Value, i: nat, acc: OrderedMap<Value>,
                                                     vars: Bindings, render: Renderer, try: bool)
    requires parent.Arr? && i <= |parent.entries| && UniqueKeys(acc)
    requires MergeArrayFrom(parent, i, acc, vars, render, try).Ok?
    ensures UniqueKeys(MergeArrayFrom(parent, i, acc, vars, render, try).value)
    decreases |parent.entries| - i
  {
    if i < |parent.entries| {
      var next := MergeEntry(parent.entries[i].0, parent.entries[i].1, acc, vars, render, try).value;
      assert UniqueKeys(next);
      MergeArrayKeepsKeysUnique(parent, i + 1, next, vars, render, try);
    }
  }

  /** `merge` of a well-formed option array returns a well-formed array. */
  lemma MergeKeepsKeysUnique(options: OrderedMap<Value>, vars: Bindings, ctx: RequestContext, render: Renderer)
    requires UniqueKeys(options) && Merge(options, vars, ctx, render).Ok?
    ensures UniqueKeys(Merge(options, vars, ctx, render).value)
  {
    MergeArrayKeepsKeysUnique(Arr(options), 0, options, Bind(vars, ctx), render, false);
  }

  /** A `|raw` key is stored, unrendered, under its stripped key, and is
      itself gone unless an entry `<key>|raw|raw` brings it back. */
  lemma RawKeyStoredUnrendered(es: OrderedMap<Value>, p: nat, vars: Bindings, render: Renderer, try: bool)
    requires UniqueKeys(es) && p < |es| && IsRawKey(es[p].0)
    requires StripRaw(es[p].0) !in Keys(es)
    requires MergeValue(Arr(es), vars, render, try).Ok?
    ensures Lookup(MergeValue(Arr(es), vars, render, try).value.entries, StripRaw(es[p].0)) == Some(es[p].1)
    ensures es[p].0 + RawSuffix !in Keys(es) ==>
              Lookup(MergeValue(Arr(es), vars, render, try).value.entries, es[p].0).None?
  {
    var k := es[p].0;
    var K := StripRaw(k);
    forall q | p < q < |es|
      ensures !Writes(es[q].0, K)
    {
      UniqueKeysDistinct(es, p, q);
      KeyAt(es, q);
      if IsRawKey(es[q].0) {
        RawStripEquation(es[q].0, K);
        RawStripEquation(k, K);
      }
    }
    MergeArrayMatchesReference(es, vars, render, try, K);
    LastWriterIs(es, K, p);
    if k + RawSuffix !in Keys(es) {
      forall q | p < q < |es|
        ensures !Writes(es[q].0, k)
      {
        UniqueKeysDistinct(es, p, q);
        KeyAt(es, q);
        if IsRawKey(es[q].0) {
          RawStripEquation(es[q].0, k);
        }
      }
      assert k != EventsKey;
      MergeArrayMatchesReference(es, vars, render, try, k);
      LastWriterIs(es, k, p);
    }
  }

  /** The value under `events` is left exactly as it was. */
  lemma EventsLeftUnresolved(es: OrderedMap<Value>, vars: Bindings, render: Renderer, try: bool)
    requires EventsKey + RawSuffix !in Keys(es)
    requires MergeValue(Arr(es), vars, render, try).Ok?
    ensures Lookup(MergeValue(Arr(es), vars, render, try).value.entries, EventsKey) == Lookup(es, EventsKey)
  {
    forall q | 0 <= q < |es|
      ensures !Writes(es[q].0, EventsKey)
    {
      KeyAt(es, q);
      if IsRawKey(es[q].0) {
        RawStripEquation(es[q].0, EventsKey);
      }
    }
    MergeArrayMatchesReference(es, vars, render, try, EventsKey);
  }

  /** Any other key holds its value merged with the same `try`. */
  lemma PlainKeyMerged(es: OrderedMap<Value>, p: nat, vars: Bindings, render: Renderer, try: bool)
    requires UniqueKeys(es) && p < |es|
    requires !IsRawKey(es[p].0) && es[p].0 != EventsKey && es[p].0 + RawSuffix !in Keys(es)
    requires MergeValue(Arr(es), vars, render, try).Ok?
    ensures MergeValue(es[p].1, vars, render, try).Ok?
    ensures Lookup(MergeValue(Arr(es), vars, render, try).value.entries, es[p].0)
            == Some(MergeValue(es[p].1, vars, render, try).value)
  {
    var K := es[p].0;
    forall q | p < q < |es|
      ensures !Writes(es[q].0, K)
    {
      UniqueKeysDistinct(es, p, q);
      KeyAt(es, q);
      if IsRawKey(es[q].0) {
        RawStripEquation(es[q].0, K);
      }
    }
    LastWriterIs(es, K, p);
    MergeArrayMatchesReference(es, vars, render, try, K);
    ArrayEntryMerged(Arr(es), 0, es, p, vars, render, try);
  }

  /** With both `foo` and `foo|raw` present, whichever comes later in the
      original key order decides the final `foo`. */
  lemma LaterOfPlainAndRawWins(es: OrderedMap<Value>, a: nat, b: nat, vars: Bindings, render: Renderer, try: bool)
    requires UniqueKeys(es) && a < |es| && b < |es|
    requires !IsRawKey(es[a].0) && es[a].0 != EventsKey && es[b].0 == es[a].0 + RawSuffix
    requires MergeValue(Arr(es), vars, render, try).Ok?
    ensures a < b ==> Lookup(MergeValue(Arr(es), vars, render, try).value.entries, es[a].0) == Some(es[b].1)
    ensures b < a ==> MergeValue(es[a].1, vars, render, try).Ok?
    ensures b < a ==> Lookup(MergeValue(Arr(es), vars, render, try).value.entries, es[a].0)
                      == Some(MergeValue(es[a].1, vars, render, try).value)
  {
    var K := es[a].0;
    var last := if a < b then b else a;
    assert IsRawKey(es[b].0) by {
      assert es[b].0[|es[b].0| - |RawSuffix|..] == RawSuffix;
    }
    RawStripEquation(es[b].0, K);
    forall q | last < q < |es|
      ensures !Writes(es[q].0, K)
    {
      UniqueKeysDistinct(es, a, q);
      UniqueKeysDistinct(es, b, q);
      if IsRawKey(es[q].0) {
        RawStripEquation(es[q].0, K);
      }
    }
    LastWriterIs(es, K, last);
    MergeArrayMatchesReference(es, vars, render, try, K);
    if b < a {
      ArrayEntryMerged(Arr(es), 0, es, a, vars, render, try);
    }
  }

  /** A successful array merge merged every entry it had to merge. */
  lemma {:induction false} ArrayEntryMerged(parent: Value, i: nat, acc: OrderedMap<Value>, p: nat,
                                            vars: Bindings, render: Renderer, try: bool)
    requires parent.Arr? && i <= p < |parent.entries|
    requires !IsRawKey(parent.entries[p].0) && parent.entries[p].0 != EventsKey
    requires MergeArrayFrom(parent, i, acc, vars, render, try).Ok?
    ensures MergeValue(parent.entries[p].1, vars, render, try).Ok?
    decreases p - i
  {
    var k := parent.entries[i].0;
    var v := parent.entries[i].1;
    if i < p {
      if IsRawKey(k) {
        var next := Remove(Put(acc, StripRaw(k), v), k);
        assert MergeArrayFrom(parent, i, acc, vars, render, try) == MergeArrayFrom(parent, i + 1, next, vars, render, try);
        ArrayEntryMerged(parent, i + 1, next, p, vars, render, try);
      } else if k == EventsKey {
        assert MergeArrayFrom(parent, i, acc, vars, render, try) == MergeArrayFrom(parent, i + 1, acc, vars, render, try);
        ArrayEntryMerged(parent, i + 1, acc, p, vars, render, try);
      } else {
        var merged := MergeValue(v, vars, render, try).value;
        var next := Put(acc, k, merged);
        assert MergeArrayFrom(parent, i, acc, vars, render, try) == MergeArrayFrom(parent, i + 1, next, vars, render, try);
        ArrayEntryMerged(parent, i + 1, next, p, vars, render, try);
      }
    }
  }

  /** Entry `p` of an array is merged (neither raw nor `events`). */
  predicate MergedEntry(es: OrderedMap<Value>, p: nat)
    requires p < |es|
  {
    !IsRawKey(es[p].0) && es[p].0 != EventsKey
  }

  /** `s` is a string of `v` reached through array entries only, so a strict
      merge of `v` renders it strictly too. */
  ghost predicate StrictlyReaches(v: Value, s: string)
    decreases v
  {
    match v
    case Str(t) => t == s
    case Arr(es) => exists p :: 0 <= p < |es| && MergedEntry(es, p) && StrictlyReaches(es[p].1, s)
    case _ => false
  }

  lemma {:induction false} ArrayFailsAtEntry(parent: Value, i: nat, acc: OrderedMap<Value>, p: nat,
                                             vars: Bindings, render: Renderer, try: bool)
    requires parent.Arr? && i <= p < |parent.entries| && MergedEntry(parent.entries, p)
    requires MergeValue(parent.entries[p].1, vars, render, try).Err?
    ensures MergeArrayFrom(parent, i, acc, vars, render, try).Err?
    decreases p - i
  {
    if MergeArrayFrom(parent, i, acc, vars, render, try).Ok? {
      ArrayEntryMerged(parent, i, acc, p, vars, render, try);
    }
  }

  lemma {:induction false} ArrayErrorHasEntry(parent: Value, i: nat, acc: OrderedMap<Value>,
                                              vars: Bindings, render: Renderer, try: bool)
    requires parent.Arr? && i <= |parent.entries|
    requires MergeArrayFrom(parent, i, acc, vars, render, try).Err?
    ensures exists p :: i <= p < |parent.entries| && MergedEntry(parent.entries, p)
                        && MergeValue(parent.entries[p].1, vars, render, try)
                           == Err(MergeArrayFrom(parent, i, acc, vars, render, try).error)
    decreases |parent.entries| - i
  {
    var k := parent.entries[i].0;
    var v := parent.entries[i].1;
    if IsRawKey(k) {
      var next := Remove(Put(acc, StripRaw(k), v), k);
      assert MergeArrayFrom(parent, i, acc, vars, render, try) == MergeArrayFrom(parent, i + 1, next, vars, render, try);
      ArrayErrorHasEntry(parent, i + 1, next, vars, render, try);
    } else if k == EventsKey {
      assert MergeArrayFrom(parent, i, acc, vars, render, try) == MergeArrayFrom(parent, i + 1, acc, vars, render, try);
      ArrayErrorHasEntry(parent, i + 1, acc, vars, render, try);
    } else {
      match MergeValue(v, vars, render, try)
      case Err(e) =>
        assert MergedEntry(parent.entries, i);
      case Ok(merged) =>
        var next := Put(acc, k, merged);
        assert MergeArrayFrom(parent, i, acc, vars, render, try) == MergeArrayFrom(parent, i + 1, next, vars, render, try);
        ArrayErrorHasEntry(parent, i + 1, next, vars, render, try);
    }
  }

  /** A strict merge fails exactly when some string it reaches through
      arrays fails to render, and it fails with that string. Objects stop
      the strictness: their properties are merged with failures swallowed. */
  lemma {:induction false} StrictMergeFailsIff(v: Value, vars: Bindings, render: Renderer)
    ensures MergeValue(v, vars, render, false).Err? <==> exists s :: StrictlyReaches(v, s) && render(s, vars).None?
    ensures MergeValue(v, vars, render, false).Err? ==>
              && MergeValue(v, vars, render, false).error.RenderFailed?
              && StrictlyReaches(v, MergeValue(v, vars, render, false).error.template)
              && render(MergeValue(v, vars, render, false).error.template, vars).None?
    decreases v
  {
    match v
    case Arr(es) =>
      if MergeValue(v, vars, render, false).Err? {
        ArrayErrorHasEntry(v, 0, es, vars, render, false);
        var p :| 0 <= p < |es| && MergedEntry(es, p)
                 && MergeValue(es[p].1, vars, render, false) == Err(MergeValue(v, vars, render, false).error);
        StrictMergeFailsIff(es[p].1, vars, render);
      }
      if s :| StrictlyReaches(v, s) && render(s, vars).None? {
        var p :| 0 <= p < |es| && MergedEntry(es, p) && StrictlyReaches(es[p].1, s);
        StrictMergeFailsIff(es[p].1, vars, render);
        ArrayFailsAtEntry(v, 0, es, p, vars, render, false);
      }
    case Str(t) =>
    case _ =>
  }

  /** `merge` rebinds `session` and `user`: whatever the caller supplied
      under those names makes no difference. */
  lemma MergeIgnoresCallerReservedKeys(options: OrderedMap<Value>, vars1: Bindings, vars2: Bindings,
                                       ctx: RequestContext, render: Renderer)
    requires vars1.Keys + {SessionKey, UserKey} == vars2.Keys + {SessionKey, UserKey}
    requires forall k :: k in vars1 && k in vars2 && k != SessionKey && k != UserKey ==> vars1[k] == vars2[k]
    ensures Merge(options, vars1, ctx, render) == Merge(options, vars2, ctx, render)
  {
    assert Bind(vars1, ctx) == Bind(vars2, ctx);
  }

  /** A top-level `merge` is strict all the way down arrays. */
  lemma MergeFailsIff(options: OrderedMap<Value>, vars: Bindings, ctx: RequestContext, render: Renderer)
    ensures Merge(options, vars, ctx, render).Err? <==>
              exists s :: StrictlyReaches(Arr(options), s) && render(s, Bind(vars, ctx)).None?
  {
    StrictMergeFailsIff(Arr(options), Bind(vars, ctx), render);
  }
  /** A key is raw exactly when it is some key followed by `|raw`. */
  lemma RawKeyIff(k: string)
    ensures IsRawKey(k) <==> exists base :: base + RawSuffix == k
  {
    if IsRawKey(k) {
      assert StripRaw(k) + RawSuffix == k;
    }
    forall base | base + RawSuffix == k
      ensures IsRawKey(k)
    {
      assert k[|k| - |RawSuffix|..] == RawSuffix;
    }
  }

  /** The array branch unsets a raw key and appends its value under the
      stripped key when that key is new: `['foo|raw' => 1, 'bar' => 2]`
      merges to `['bar' => 2, 'foo' => 1]`, so the merged array's order is
      not the declaration order. */
  lemma RawKeyMovesToEnd(base: string, a: Value, other: string, b: Value,
                         vars: Bindings, render: Renderer, try: bool)
    requires !IsRawKey(other) && other != EventsKey && other != base && b.IsPlainScalar()
    ensures MergeValue(Arr([(base + RawSuffix, a), (other, b)]), vars, render, try)
            == Ok(Arr([(other, b), (base, a)]))
  {
    var v := Arr([(base + RawSuffix, a), (other, b)]);
    var afterRaw := [(other, b), (base, a)];
    RawEntryMoves(base, a, other, b, vars, render, try);
    PlainEntryStays(other, b, afterRaw, vars, render, try);
    assert MergeArrayFrom(v, 1, afterRaw, vars, render, try) == Ok(afterRaw) by {
      assert MergeArrayFrom(v, 2, afterRaw, vars, render, try) == Ok(afterRaw);
    }
  }

  /** The first pass of `RawKeyMovesToEnd`: the raw entry leaves its place
      and its value is appended under the stripped key. */
  lemma RawEntryMoves(base: string, a: Value, other: string, b: Value,
                      vars: Bindings, render: Renderer, try: bool)
    requires !IsRawKey(other) && other != base
    ensures MergeEntry(base + RawSuffix, a, [(base + RawSuffix, a), (other, b)], vars, render, try)
            == Ok([(other, b), (base, a)])
  {
    var k := base + RawSuffix;
    var es := [(k, a), (other, b)];
    assert IsRawKey(k) && StripRaw(k) == base by {
      RawKeyIff(k);
    }
    assert other != k;
    assert base != k by {
      assert |base| < |k|;
    }
    assert Put(es, base, a) == es + [(base, a)];
    var put := es + [(base, a)];
    assert Remove([(base, a)], k) == [(base, a)];
    assert put[1..][1..] == [(base, a)];
    assert Remove(put[1..], k) == [(other, b)] + Remove([(base, a)], k);
    assert Remove(put, k) == [(other, b), (base, a)];
    assert MergeEntry(k, a, es, vars, render, try) == Ok(Remove(Put(es, base, a), k));
  }

  /** The second pass of `RawKeyMovesToEnd`: a plain scalar already first
      in the array is stored back in place. */
  lemma PlainEntryStays(k: string, v: Value, acc: OrderedMap<Value>, vars: Bindings, render: Renderer, try: bool)
    requires !IsRawKey(k) && k != EventsKey && v.IsPlainScalar()
    requires acc != [] && acc[0] == (k, v)
    ensures MergeEntry(k, v, acc, vars, render, try) == Ok(acc)
  {
    assert MergeValue(v, vars, render, try) == Ok(v);
    assert Put(acc, k, v) == [(k, v)] + acc[1..] == acc;
  }
}
