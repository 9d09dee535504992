/** The per-file list of cached ranges: registering ranges, looking one up, and the
    physical range that backs a logical one. */
module FileIndex {
  import opened Common
  import opened CacheSystem

  /** An entry of a file's list, with its request counters. */
  datatype FileEntry = FileEntry(id: nat, logical: Range, nTotal: nat, nRequest: int, requestTs: nat)

  predicate Sorted(ranges: seq<Range>) {
    forall i, j :: 0 <= i < j < |ranges| ==> ranges[i].offset <= ranges[j].offset
  }

  predicate StrictlySorted(ranges: seq<Range>) {
    forall i, j :: 0 <= i < j < |ranges| ==> ranges[i].offset < ranges[j].offset
  }

  function Ranges(entries: seq<FileEntry>): (r: seq<Range>)
    ensures |r| == |entries| && forall i :: 0 <= i < |entries| ==> r[i] == entries[i].logical
  {
    seq(|entries|, i requires 0 <= i < |entries| => entries[i].logical)
  }

  // ---- Insert ---------------------------------------------------------------------

  /** A range asked for again: within the same epoch its outstanding count grows,
      in a new epoch it restarts at one. */
  function Bumped(e: FileEntry, tick: nat): FileEntry {
    e.(nTotal := e.nTotal + 1, nRequest := if e.requestTs == tick then e.nRequest + 1 else 1, requestTs := tick)
  }

  function Created(range: Range, id: nat, tick: nat): FileEntry {
    FileEntry(id, range, 1, 1, tick)
  }

  /** The list after inserting `ranges`, and the entries the insert asks to load; new
      entries get identities from `next` on. */
  function Merged(ex: seq<FileEntry>, ranges: seq<Range>, tick: nat, next: nat): (seq<FileEntry>, seq<FileEntry>)
    decreases |ex| + |ranges|
  {
    if ranges == [] then (ex, [])
    else if ex != [] && ex[0].logical.offset < ranges[0].offset then
      var (m, r) := Merged(ex[1..], ranges, tick, next);
      ([ex[0]] + m, r)
    else if ex != [] && ex[0].logical.offset == ranges[0].offset then
      var e := Bumped(ex[0], tick);
      var (m, r) := Merged(ex[1..], ranges[1..], tick, next);
      ([e] + m, [e] + r)
    else
      var e := Created(ranges[0], next, tick);
      var (m, r) := Merged(ex, ranges[1..], tick, next + 1);
      ([e] + m, [e] + r)
  }

  /** The two-cursor merge of the source. */
  method Insert(entries: seq<FileEntry>, ranges: seq<Range>, tick: nat, next: nat)
    returns (merged: seq<FileEntry>, requested: seq<FileEntry>)
    ensures (merged, requested) == Merged(entries, ranges, tick, next)
  {
    merged, requested := [], [];
    var i, k, id := 0, 0, next;
    assert entries[0..] == entries && ranges[0..] == ranges;
    ghost var whole := Merged(entries, ranges, tick, next);
    assert [] + whole.0 == whole.0 && [] + whole.1 == whole.1;
    while k < |ranges|
      invariant 0 <= i <= |entries| && 0 <= k <= |ranges| && next <= id
      invariant Merged(entries, ranges, tick, next) ==
                (merged + Merged(entries[i..], ranges[k..], tick, id).0,
                 requested + Merged(entries[i..], ranges[k..], tick, id).1)
      decreases |ranges| - k
    {
      while i < |entries| && entries[i].logical.offset < ranges[k].offset
        invariant 0 <= i <= |entries|
        invariant Merged(entries, ranges, tick, next) ==
                  (merged + Merged(entries[i..], ranges[k..], tick, id).0,
                   requested + Merged(entries[i..], ranges[k..], tick, id).1)
      {
        Unfold(entries, i, ranges, k, tick, id, merged, requested);
        merged := merged + [entries[i]];
        i := i + 1;
      }
      Unfold(entries, i, ranges, k, tick, id, merged, requested);
      if i < |entries| && entries[i].logical.offset == ranges[k].offset {
        var existing := Bumped(entries[i], tick);
        requested := requested + [existing];
        merged := merged + [existing];
        i := i + 1;
      } else {
        var e := Created(ranges[k], id, tick);
        requested := requested + [e];
        merged := merged + [e];
        id := id + 1;
      }
      k := k + 1;
    }
    assert ranges[k..] == [] && requested + [] == requested;
    merged := merged + entries[i..];
  }

  lemma Unfold(ex: seq<FileEntry>, i: nat, ranges: seq<Range>, k: nat, tick: nat, id: nat, m: seq<FileEntry>,
      r: seq<FileEntry>)
    requires i <= |ex| && k < |ranges|
    ensures var (x, y) := Merged(ex[i..], ranges[k..], tick, id);
            if i < |ex| && ex[i].logical.offset < ranges[k].offset then
              var (x', y') := Merged(ex[i + 1..], ranges[k..], tick, id);
              m + x == (m + [ex[i]]) + x' && r + y == r + y'
            else if i < |ex| && ex[i].logical.offset == ranges[k].offset then
              var (x', y') := Merged(ex[i + 1..], ranges[k + 1..], tick, id);
              var e := Bumped(ex[i], tick);
              m + x == (m + [e]) + x' && r + y == (r + [e]) + y'
            else
              var (x', y') := Merged(ex[i..], ranges[k + 1..], tick, id + 1);
              var e := Created(ranges[k], id, tick);
              m + x == (m + [e]) + x' && r + y == (r + [e]) + y'
  {
    assert i < |ex| ==> ex[i..][1..] == ex[i + 1..];
    assert ranges[k..][1..] == ranges[k + 1..];
  }

  predicate AtLeast(entries: seq<FileEntry>, low: nat) {
    forall i :: 0 <= i < |entries| ==> low <= entries[i].logical.offset
  }

  /** Offsets of a merge come from the list or from the ranges. */
  lemma {:induction false} MergedOffsets(ex: seq<FileEntry>, ranges: seq<Range>, tick: nat, next: nat, low: nat)
    requires AtLeast(ex, low)
    requires forall i :: 0 <= i < |ranges| ==> low <= ranges[i].offset
    ensures AtLeast(Merged(ex, ranges, tick, next).0, low)
    decreases |ex| + |ranges|
  {
    if ranges != [] {
      if ex != [] && ex[0].logical.offset < ranges[0].offset {
        MergedOffsets(ex[1..], ranges, tick, next, low);
        assert ex[0].logical.offset >= low;
      } else if ex != [] && ex[0].logical.offset == ranges[0].offset {
        MergedOffsets(ex[1..], ranges[1..], tick, next, low);
      } else {
        MergedOffsets(ex, ranges[1..], tick, next + 1, low);
      }
    }
  }

  lemma PrependStrict(x: FileEntry, m: seq<FileEntry>)
    requires StrictlySorted(Ranges(m)) && forall i :: 0 <= i < |m| ==> x.logical.offset < m[i].logical.offset
    ensures StrictlySorted(Ranges([x] + m))
  {
    var all := Ranges([x] + m);
    forall i, j | 0 <= i < j < |all| ensures all[i].offset < all[j].offset {
      assert all[j] == Ranges(m)[j - 1];
      if i > 0 { assert all[i] == Ranges(m)[i - 1]; }
    }
  }

  lemma TailStrict(ranges: seq<Range>)
    requires StrictlySorted(ranges) && ranges != []
    ensures StrictlySorted(ranges[1..]) && forall i :: 0 <= i < |ranges[1..]| ==>
            ranges[0].offset + 1 <= ranges[1..][i].offset
  {
  }

  lemma TailEntries(ex: seq<FileEntry>)
    requires StrictlySorted(Ranges(ex)) && ex != []
    ensures StrictlySorted(Ranges(ex[1..]))
    ensures forall i :: 0 <= i < |ex[1..]| ==> ex[0].logical.offset + 1 <= ex[1..][i].logical.offset
  {
    assert Ranges(ex[1..]) == Ranges(ex)[1..];
    TailStrict(Ranges(ex));
  }

  /** Inserting strictly increasing ranges keeps the list strictly sorted. */
  lemma {:induction false} InsertKeepsSorted(ex: seq<FileEntry>, ranges: seq<Range>, tick: nat, next: nat)
    requires StrictlySorted(Ranges(ex)) && StrictlySorted(ranges)
    ensures StrictlySorted(Ranges(Merged(ex, ranges, tick, next).0))
    decreases |ex| + |ranges|
  {
    if ranges != [] {
      TailStrict(ranges);
      if ex != [] { TailEntries(ex); }
      hide StrictlySorted;
      if ex != [] && ex[0].logical.offset < ranges[0].offset {
        var m := Merged(ex[1..], ranges, tick, next).0;
        InsertKeepsSorted(ex[1..], ranges, tick, next);
        StrictLow(ranges);
        MergedOffsets(ex[1..], ranges, tick, next, ex[0].logical.offset + 1);
        PrependStrict(ex[0], m);
      } else if ex != [] && ex[0].logical.offset == ranges[0].offset {
        var m := Merged(ex[1..], ranges[1..], tick, next).0;
        InsertKeepsSorted(ex[1..], ranges[1..], tick, next);
        MergedOffsets(ex[1..], ranges[1..], tick, next, ex[0].logical.offset + 1);
        PrependStrict(Bumped(ex[0], tick), m);
      } else {
        var m := Merged(ex, ranges[1..], tick, next + 1).0;
        InsertKeepsSorted(ex, ranges[1..], tick, next + 1);
        if ex != [] { StrictLow(Ranges(ex)); }
        MergedOffsets(ex, ranges[1..], tick, next + 1, ranges[0].offset + 1);
        PrependStrict(Created(ranges[0], next, tick), m);
      }
    }
  }

  lemma StrictLow(ranges: seq<Range>)
    requires StrictlySorted(ranges) && ranges != []
    ensures forall i :: 0 <= i < |ranges| ==> ranges[0].offset <= ranges[i].offset
  {
  }

  /** The identities and ranges of a list. */
  ghost function Keys(entries: seq<FileEntry>): multiset<(nat, Range)> {
    if entries == [] then multiset{} else multiset{(entries[0].id, entries[0].logical)} + Keys(entries[1..])
  }

  lemma KeysCons(e: FileEntry, m: seq<FileEntry>)
    ensures Keys([e] + m) == multiset{(e.id, e.logical)} + Keys(m)
  {
    assert ([e] + m)[1..] == m;
  }

  /** Whatever the ranges, an insert loses no entry, and it asks for exactly one entry at
      each range's offset, in order, each with its request time set. */
  lemma {:induction false} InsertLosesNothing(ex: seq<FileEntry>, ranges: seq<Range>, tick: nat, next: nat)
    ensures var (m, r) := Merged(ex, ranges, tick, next);
            && Keys(ex) <= Keys(m) && |m| <= |ex| + |ranges| && |r| == |ranges|
            && (forall k :: 0 <= k < |ranges| ==>
                  r[k].logical.offset == ranges[k].offset && r[k].requestTs == tick && r[k].nTotal >= 1 && r[k] in m)
            && (forall x :: x in m ==> x in ex || x in r)
    decreases |ex| + |ranges|
  {
    if ranges != [] {
      if ex != [] && ex[0].logical.offset < ranges[0].offset {
        var (m, r) := Merged(ex[1..], ranges, tick, next);
        InsertLosesNothing(ex[1..], ranges, tick, next);
        KeysCons(ex[0], m);
      } else if ex != [] && ex[0].logical.offset == ranges[0].offset {
        var (m, r) := Merged(ex[1..], ranges[1..], tick, next);
        InsertLosesNothing(ex[1..], ranges[1..], tick, next);
        KeysCons(Bumped(ex[0], tick), m);
        Shifted(Bumped(ex[0], tick), m, r, ranges, tick);
      } else {
        var (m, r) := Merged(ex, ranges[1..], tick, next + 1);
        InsertLosesNothing(ex, ranges[1..], tick, next + 1);
        KeysCons(Created(ranges[0], next, tick), m);
        Shifted(Created(ranges[0], next, tick), m, r, ranges, tick);
      }
    }
  }

  lemma Shifted(e: FileEntry, m: seq<FileEntry>, r: seq<FileEntry>, ranges: seq<Range>, tick: nat)
    requires ranges != [] && |r| == |ranges| - 1
    requires e.logical.offset == ranges[0].offset && e.requestTs == tick && e.nTotal >= 1
    requires forall k :: 0 <= k < |r| ==>
               r[k].logical.offset == ranges[1..][k].offset && r[k].requestTs == tick && r[k].nTotal >= 1 && r[k] in m
    ensures forall k :: 0 <= k < |ranges| ==>
              var x := ([e] + r)[k];
              x.logical.offset == ranges[k].offset && x.requestTs == tick && x.nTotal >= 1 && x in [e] + m
  {
    forall k | 0 <= k < |ranges|
      ensures var x := ([e] + r)[k];
              x.logical.offset == ranges[k].offset && x.requestTs == tick && x.nTotal >= 1 && x in [e] + m
    {
      if k > 0 {
        assert ([e] + r)[k] == r[k - 1] && ranges[1..][k - 1] == ranges[k];
      }
    }
  }

  /** The ranges that start where no entry does. */
  function Absent(ranges: seq<Range>, ex: seq<FileEntry>): seq<Range> {
    if ranges == [] then []
    else if exists i :: 0 <= i < |ex| && ex[i].logical.offset == ranges[0].offset then Absent(ranges[1..], ex)
    else [ranges[0]] + Absent(ranges[1..], ex)
  }

  /** One new entry for each range, with identities from `next` on. */
  function AllCreated(ranges: seq<Range>, tick: nat, next: nat): seq<FileEntry> {
    if ranges == [] then [] else [Created(ranges[0], next, tick)] + AllCreated(ranges[1..], tick, next + 1)
  }

  lemma {:induction false} AbsentRest(ranges: seq<Range>, ex: seq<FileEntry>)
    requires ex != [] && forall k :: 0 <= k < |ranges| ==> ranges[k].offset != ex[0].logical.offset
    ensures Absent(ranges, ex) == Absent(ranges, ex[1..])
  {
    if ranges != [] {
      AbsentRest(ranges[1..], ex);
      if i :| 0 <= i < |ex| && ex[i].logical.offset == ranges[0].offset {
        assert ex[1..][i - 1] == ex[i];
      }
    }
  }

  /** An insert of strictly increasing ranges adds one new entry for each range that starts
      where no entry does, and nothing else. */
  lemma {:induction false} InsertAddsAbsent(ex: seq<FileEntry>, ranges: seq<Range>, tick: nat, next: nat)
    requires StrictlySorted(Ranges(ex)) && StrictlySorted(ranges)
    ensures Keys(Merged(ex, ranges, tick, next).0) == Keys(ex) + Keys(AllCreated(Absent(ranges, ex), tick, next))
    decreases |ex| + |ranges|
  {
    hide StrictlySorted, Keys, AllCreated, Absent;
    if ranges == [] {
      NoneAbsent(ex, tick, next);
    } else {
      TailStrict(ranges);
      StrictLow(ranges);
      if ex != [] { TailEntries(ex); StrictLow(Ranges(ex)); }
      if ex != [] && ex[0].logical.offset < ranges[0].offset {
        InsertAddsAbsent(ex[1..], ranges, tick, next);
        AbsentRest(ranges, ex);
        KeysCons(ex[0], Merged(ex[1..], ranges, tick, next).0);
        KeysSplit(ex);
      } else if ex != [] && ex[0].logical.offset == ranges[0].offset {
        InsertAddsAbsent(ex[1..], ranges[1..], tick, next);
        AbsentRest(ranges[1..], ex);
        OldRange(ex, ranges);
        KeysCons(Bumped(ex[0], tick), Merged(ex[1..], ranges[1..], tick, next).0);
        KeysSplit(ex);
      } else {
        InsertAddsAbsent(ex, ranges[1..], tick, next + 1);
        NewRange(ex, ranges);
        var e := Created(ranges[0], next, tick);
        KeysCons(e, Merged(ex, ranges[1..], tick, next + 1).0);
        AllCreatedCons(ranges[0], Absent(ranges[1..], ex), tick, next);
        KeysCons(e, AllCreated(Absent(ranges[1..], ex), tick, next + 1));
      }
    }
  }

  lemma NoneAbsent(ex: seq<FileEntry>, tick: nat, next: nat)
    ensures Absent([], ex) == [] && AllCreated([], tick, next) == [] && Keys([]) == multiset{}
  {
  }

  lemma KeysSplit(ex: seq<FileEntry>)
    requires ex != []
    ensures Keys(ex) == multiset{(ex[0].id, ex[0].logical)} + Keys(ex[1..])
  {
  }

  lemma {:induction false} OldRange(ex: seq<FileEntry>, ranges: seq<Range>)
    requires ex != [] && ranges != [] && ex[0].logical.offset == ranges[0].offset
    ensures Absent(ranges, ex) == Absent(ranges[1..], ex)
  {
  }

  lemma {:induction false} NewRange(ex: seq<FileEntry>, ranges: seq<Range>)
    requires ranges != [] && AtLeast(ex, ranges[0].offset + 1)
    ensures Absent(ranges, ex) == [ranges[0]] + Absent(ranges[1..], ex)
  {
  }

  lemma AllCreatedCons(range: Range, ranges: seq<Range>, tick: nat, next: nat)
    ensures AllCreated([range] + ranges, tick, next) ==
            [Created(range, next, tick)] + AllCreated(ranges, tick, next + 1)
  {
    assert ([range] + ranges)[1..] == ranges;
  }

  lemma PrependRange(x: Range, ranges: seq<Range>)
    requires StrictlySorted(ranges) && forall i :: 0 <= i < |ranges| ==> x.offset < ranges[i].offset
    ensures StrictlySorted([x] + ranges)
  {
    var all := [x] + ranges;
    forall i, j | 0 <= i < j < |all| ensures all[i].offset < all[j].offset {
      assert all[j] == ranges[j - 1];
      if i > 0 { assert all[i] == ranges[i - 1]; }
    }
  }

  lemma {:induction false} SortedOnlyIf(ex: seq<FileEntry>, ranges: seq<Range>, tick: nat, next: nat)
    requires StrictlySorted(Ranges(Merged(ex, ranges, tick, next).0))
    ensures StrictlySorted(ranges)
    decreases |ex| + |ranges|
  {
    hide StrictlySorted;
    if ranges == [] {
      NothingSorted();
    } else {
      var whole := Merged(ex, ranges, tick, next).0;
      TailEntries(whole);
      if ex != [] && ex[0].logical.offset < ranges[0].offset {
        assert whole[1..] == Merged(ex[1..], ranges, tick, next).0;
        SortedOnlyIf(ex[1..], ranges, tick, next);
      } else {
        var same := ex != [] && ex[0].logical.offset == ranges[0].offset;
        var ex', next' := if same then ex[1..] else ex, if same then next else next + 1;
        var m := Merged(ex', ranges[1..], tick, next').0;
        assert whole[1..] == m && whole[0].logical.offset == ranges[0].offset;
        SortedOnlyIf(ex', ranges[1..], tick, next');
        RangesAbove(ex', ranges[1..], tick, next', ranges[0].offset);
        PrependRange(ranges[0], ranges[1..]);
        assert ranges == [ranges[0]] + ranges[1..];
      }
    }
  }

  lemma NothingSorted()
    ensures StrictlySorted([])
  {
  }

  /** What lies below the whole merge lies below the merged ranges. */
  lemma RangesAbove(ex: seq<FileEntry>, ranges: seq<Range>, tick: nat, next: nat, low: nat)
    requires AtLeast(Merged(ex, ranges, tick, next).0, low + 1)
    ensures forall k :: 0 <= k < |ranges| ==> low < ranges[k].offset
  {
    InsertLosesNothing(ex, ranges, tick, next);
    var (m, r) := Merged(ex, ranges, tick, next);
    hide Merged;
    forall k | 0 <= k < |ranges| ensures low < ranges[k].offset {
      assert r[k] in m;
    }
  }

  /** A strictly sorted list stays so exactly when the inserted ranges have strictly
      increasing offsets. */
  lemma InsertSorted(ex: seq<FileEntry>, ranges: seq<Range>, tick: nat, next: nat)
    requires StrictlySorted(Ranges(ex))
    ensures StrictlySorted(Ranges(Merged(ex, ranges, tick, next).0)) <==> StrictlySorted(ranges)
  {
    hide StrictlySorted, Merged;
    if StrictlySorted(ranges) {
      InsertKeepsSorted(ex, ranges, tick, next);
    }
    if StrictlySorted(Ranges(Merged(ex, ranges, tick, next).0)) {
      SortedOnlyIf(ex, ranges, tick, next);
    }
  }

  // ---- Request counts ---------------------------------------------------------------

  /** One insert: its ranges and the epoch it is made in. */
  datatype Request = Request(ranges: seq<Range>, tick: nat)

  ghost predicate AllStrict(history: seq<Request>) {
    forall k :: 0 <= k < |history| ==> StrictlySorted(history[k].ranges)
  }

  /** How many identities the inserts can have used up. */
  function Used(history: seq<Request>): nat {
    if history == [] then 0 else Used(history[..|history| - 1]) + |history[|history| - 1].ranges|
  }

  /** The list after inserts into an empty one. */
  function ListAfter(history: seq<Request>): seq<FileEntry> {
    if history == [] then []
    else
      var n := |history| - 1;
      Merged(ListAfter(history[..n]), history[n].ranges, history[n].tick, Used(history[..n])).0
  }

  /** The range of a request that starts at `offset`. */
  function RangeAt(ranges: seq<Range>, offset: nat): Option<Range> {
    if ranges == [] then None
    else if ranges[0].offset == offset then Some(ranges[0])
    else RangeAt(ranges[1..], offset)
  }

  function EntryAtOffset(entries: seq<FileEntry>, offset: nat): Option<FileEntry> {
    if entries == [] then None
    else if entries[0].logical.offset == offset then Some(entries[0])
    else EntryAtOffset(entries[1..], offset)
  }

  /** The epochs of the inserts that named `offset`, in order. */
  function Ticks(history: seq<Request>, offset: nat): seq<nat> {
    if history == [] then []
    else
      var n := |history| - 1;
      Ticks(history[..n], offset) + if RangeAt(history[n].ranges, offset).Some? then [history[n].tick] else []
  }

  /** The range of the first insert that named `offset`. */
  function FirstRange(history: seq<Request>, offset: nat): Option<Range> {
    if history == [] then None
    else
      var first := FirstRange(history[..|history| - 1], offset);
      if first.Some? then first else RangeAt(history[|history| - 1].ranges, offset)
  }

  /** The last `k` ticks are the same, and the one before them is another. */
  predicate TrailingRun(ticks: seq<nat>, k: int) {
    && 1 <= k <= |ticks|
    && (forall i :: |ticks| - k <= i < |ticks| ==> ticks[i] == ticks[|ticks| - 1])
    && (k < |ticks| ==> ticks[|ticks| - k - 1] != ticks[|ticks| - 1])
  }

  /** What the inserts so far say of an entry. */
  predicate CountsRight(history: seq<Request>, offset: nat, e: FileEntry) {
    var ticks := Ticks(history, offset);
    && ticks != [] && FirstRange(history, offset) == Some(e.logical)
    && e.nTotal == |ticks| && e.requestTs == ticks[|ticks| - 1] && TrailingRun(ticks, e.nRequest)
  }

  lemma {:induction false} NoRangeAt(ranges: seq<Range>, offset: nat)
    requires forall i :: 0 <= i < |ranges| ==> offset < ranges[i].offset
    ensures RangeAt(ranges, offset).None?
  {
    if ranges != [] { NoRangeAt(ranges[1..], offset); }
  }

  lemma {:induction false} NoEntryAt(entries: seq<FileEntry>, offset: nat)
    requires AtLeast(entries, offset + 1)
    ensures EntryAtOffset(entries, offset).None?
  {
    if entries != [] { NoEntryAt(entries[1..], offset); }
  }

  /** What a merge makes of the entry and the range at an offset. */
  predicate MergedEntry(before: Option<FileEntry>, asked: Option<Range>, tick: nat, after: Option<FileEntry>) {
    if asked.None? then after == before
    else if before.None? then after.Some? && after.value == Created(asked.value, after.value.id, tick)
    else after == Some(Bumped(before.value, tick))
  }

  lemma {:induction false} MergedAt(ex: seq<FileEntry>, ranges: seq<Range>, tick: nat, next: nat, offset: nat)
    requires StrictlySorted(Ranges(ex)) && StrictlySorted(ranges)
    ensures MergedEntry(EntryAtOffset(ex, offset), RangeAt(ranges, offset), tick,
                        EntryAtOffset(Merged(ex, ranges, tick, next).0, offset))
    decreases |ex| + |ranges|
  {
    hide StrictlySorted, Bumped, Created;
    if ranges != [] {
      TailStrict(ranges);
      StrictLow(ranges);
      if ex != [] { TailEntries(ex); StrictLow(Ranges(ex)); }
      if ex != [] && ex[0].logical.offset < ranges[0].offset {
        MergedAt(ex[1..], ranges, tick, next, offset);
        if offset == ex[0].logical.offset { NoRangeAt(ranges, offset); }
        AtHead(ex[0], Merged(ex[1..], ranges, tick, next).0, offset);
      } else if ex != [] && ex[0].logical.offset == ranges[0].offset {
        MergedAt(ex[1..], ranges[1..], tick, next, offset);
        BumpedStays(ex[0], tick);
        AtHead(Bumped(ex[0], tick), Merged(ex[1..], ranges[1..], tick, next).0, offset);
      } else {
        MergedAt(ex, ranges[1..], tick, next + 1, offset);
        CreatedThere(ranges[0], next, tick);
        if offset == ranges[0].offset { NoEntryAt(ex, offset); }
        AtHead(Created(ranges[0], next, tick), Merged(ex, ranges[1..], tick, next + 1).0, offset);
      }
    }
  }

  lemma AtHead(e: FileEntry, m: seq<FileEntry>, offset: nat)
    ensures EntryAtOffset([e] + m, offset) == if e.logical.offset == offset then Some(e) else EntryAtOffset(m, offset)
  {
    assert ([e] + m)[1..] == m;
  }

  lemma BumpedStays(e: FileEntry, tick: nat)
    ensures Bumped(e, tick).logical == e.logical && Bumped(e, tick).id == e.id
  {
  }

  lemma CreatedThere(range: Range, id: nat, tick: nat)
    ensures Created(range, id, tick).logical == range && Created(range, id, tick).id == id
  {
  }

  lemma {:induction false} ListStrict(history: seq<Request>)
    requires AllStrict(history)
    ensures StrictlySorted(Ranges(ListAfter(history)))
    decreases |history|
  {
    if history != [] {
      var n := |history| - 1;
      ListStrict(history[..n]);
      InsertKeepsSorted(ListAfter(history[..n]), history[n].ranges, history[n].tick, Used(history[..n]));
    }
  }

  lemma MoreTicks(ticks: seq<nat>, k: int, tick: nat)
    requires TrailingRun(ticks, k)
    ensures TrailingRun(ticks + [tick], if ticks[|ticks| - 1] == tick then k + 1 else 1)
  {
  }

  /** Over any inserts into an empty list, an entry stands exactly at the offsets that were
      named, with the range first named there; it was asked for as often as it was named, last
      in the epoch of its last naming, and its outstanding count is the number of namings at
      the end that fall into that epoch. */
  lemma {:induction false} CountsFollow(history: seq<Request>, offset: nat)
    requires AllStrict(history)
    ensures var e := EntryAtOffset(ListAfter(history), offset);
            && (e.Some? <==> Ticks(history, offset) != []) && (e.Some? <==> FirstRange(history, offset).Some?)
            && (e.Some? ==> CountsRight(history, offset, e.value))
    decreases |history|
  {
    hide ListAfter, Merged, Ticks, FirstRange, EntryAtOffset, RangeAt, CountsRight, MergedEntry, Used, StrictlySorted;
    if history == [] {
      NothingNamed(offset);
    } else {
      var n := |history| - 1;
      var before, r := history[..n], history[n];
      CountsFollow(before, offset);
      ListStrict(before);
      MergedAt(ListAfter(before), r.ranges, r.tick, Used(before), offset);
      CountsStep(before, r, offset);
      assert before + [r] == history;
    }
  }

  lemma NothingNamed(offset: nat)
    ensures EntryAtOffset(ListAfter([]), offset).None? && Ticks([], offset) == [] && FirstRange([], offset).None?
  {
  }

  /** So the counts of every entry of the list are right. */
  lemma EveryCountRight(history: seq<Request>, k: nat)
    requires AllStrict(history) && k < |ListAfter(history)|
    ensures CountsRight(history, ListAfter(history)[k].logical.offset, ListAfter(history)[k])
  {
    hide ListAfter, CountsRight, Ticks, FirstRange;
    ListStrict(history);
    FoundAtOwnOffset(ListAfter(history), k);
    CountsFollow(history, ListAfter(history)[k].logical.offset);
  }

  lemma {:induction false} FoundAtOwnOffset(entries: seq<FileEntry>, k: nat)
    requires StrictlySorted(Ranges(entries)) && k < |entries|
    ensures EntryAtOffset(entries, entries[k].logical.offset) == Some(entries[k])
    decreases k
  {
    if k > 0 {
      assert Ranges(entries)[0].offset < Ranges(entries)[k].offset;
      TailEntries(entries);
      assert entries[1..][k - 1] == entries[k];
      FoundAtOwnOffset(entries[1..], k - 1);
    }
  }

  lemma CountsStep(before: seq<Request>, r: Request, offset: nat)
    requires var e := EntryAtOffset(ListAfter(before), offset);
             && (e.Some? <==> Ticks(before, offset) != []) && (e.Some? <==> FirstRange(before, offset).Some?)
             && (e.Some? ==> CountsRight(before, offset, e.value))
    requires MergedEntry(EntryAtOffset(ListAfter(before), offset), RangeAt(r.ranges, offset), r.tick,
                         EntryAtOffset(Merged(ListAfter(before), r.ranges, r.tick, Used(before)).0, offset))
    ensures var e := EntryAtOffset(ListAfter(before + [r]), offset);
            && (e.Some? <==> Ticks(before + [r], offset) != [])
            && (e.Some? <==> FirstRange(before + [r], offset).Some?)
            && (e.Some? ==> CountsRight(before + [r], offset, e.value))
  {
    hide ListAfter, Merged, RangeAt, EntryAtOffset, Ticks, FirstRange, TrailingRun;
    OneMore(before, r, offset);
    var e, ticks := EntryAtOffset(ListAfter(before), offset), Ticks(before, offset);
    if e.Some? {
      MoreTicks(ticks, e.value.nRequest, r.tick);
    } else {
      OneTick(r.tick);
      assert [] + [r.tick] == [r.tick];
    }
    assert ticks + [] == ticks;
  }

  lemma OneTick(tick: nat)
    ensures TrailingRun([tick], 1)
  {
  }

  lemma OneMore(before: seq<Request>, r: Request, offset: nat)
    ensures var named := RangeAt(r.ranges, offset);
            && ListAfter(before + [r]) == Merged(ListAfter(before), r.ranges, r.tick, Used(before)).0
            && Ticks(before + [r], offset) == Ticks(before, offset) + (if named.Some? then [r.tick] else [])
            && FirstRange(before + [r], offset) ==
                 if FirstRange(before, offset).Some? then FirstRange(before, offset) else named
  {
    assert (before + [r])[..|before|] == before;
    hide Merged, RangeAt;
  }

  // ---- Lookup ---------------------------------------------------------------------

  predicate Covers(r: Range, offset: nat, size: nat) {
    r.offset <= offset && offset + size <= r.End()
  }

  /** The first index whose range starts past `offset`. */
  method UpperBound(ranges: seq<Range>, offset: nat) returns (p: nat)
    requires Sorted(ranges)
    ensures p <= |ranges|
    ensures forall i :: 0 <= i < p ==> ranges[i].offset <= offset
    ensures forall i :: p <= i < |ranges| ==> offset < ranges[i].offset
  {
    var lo, hi := 0, |ranges|;
    while lo < hi
      invariant 0 <= lo <= hi <= |ranges|
      invariant forall i :: 0 <= i < lo ==> ranges[i].offset <= offset
      invariant forall i :: hi <= i < |ranges| ==> offset < ranges[i].offset
    {
      var mid := (lo + hi) / 2;
      if offset < ranges[mid].offset {
        hi := mid;
      } else {
        lo := mid + 1;
      }
    }
    p := lo;
  }

  /** `i` is the last range that starts at or before `offset`. */
  predicate IsCandidate(ranges: seq<Range>, offset: nat, i: nat) {
    && i < |ranges| && ranges[i].offset <= offset
    && forall j :: i < j < |ranges| ==> offset < ranges[j].offset
  }

  /** The last range that starts at or before the request covers it. */
  ghost predicate Found(ranges: seq<Range>, offset: nat, size: nat) {
    exists i: nat :: IsCandidate(ranges, offset, i) && Covers(ranges[i], offset, size)
  }

  /** The two tests on the candidate: it reaches past the request's start, and past its
      end. The sums are 64-bit words. */
  predicate Accepts(r: Range, offset: nat, size: nat) {
    offset < r.End() % WORD && (offset + size) % WORD <= r.End() % WORD
  }

  /** The tests let a non-empty request through exactly when the range covers it or the
      request's end wraps around to a place before the range's end. */
  lemma AcceptsIff(r: Range, offset: nat, size: nat)
    requires r.offset <= offset < WORD && 0 < size < WORD && r.End() < WORD
    ensures Accepts(r, offset, size) <==>
            Covers(r, offset, size) || (offset < r.End() && WORD <= offset + size <= r.End() + WORD)
  {
    ModUnique(r.End(), WORD, 0, r.End());
    if offset + size < WORD {
      ModUnique(offset + size, WORD, 0, offset + size);
    } else {
      ModUnique(offset + size, WORD, 1, offset + size - WORD);
    }
  }

  /** A request that reaches past the last address is let through. */
  lemma WrappedEndAccepted()
    ensures Accepts(Range(0, 100), 50, WORD - 10) && !Covers(Range(0, 100), 50, WORD - 10)
  {
    AcceptsIff(Range(0, 100), 50, WORD - 10);
  }

  /** Returns the index of the last range that starts at or before the request, if that
      range passes the two tests. */
  method FindEntry(ranges: seq<Range>, offset: nat, size: nat) returns (r: Option<nat>)
    requires Sorted(ranges)
    ensures r.Some? ==> IsCandidate(ranges, offset, r.value) && Accepts(ranges[r.value], offset, size)
    ensures r.None? ==> forall i: nat :: IsCandidate(ranges, offset, i) ==> !Accepts(ranges[i], offset, size)
  {
    var p := UpperBound(ranges, offset);
    if p == 0 { return None; }
    var end := (ranges[p - 1].offset + ranges[p - 1].size) % WORD;
    if end <= offset { return None; }
    if (offset + size) % WORD > end { return None; }
    return Some(p - 1);
  }

  /** What the search answers is right for every non-empty request that ends within 64 bits. */
  lemma SearchIsFound(ranges: seq<Range>, offset: nat, size: nat, i: nat)
    requires size > 0 && offset + size < WORD && forall k :: 0 <= k < |ranges| ==> ranges[k].End() < WORD
    requires IsCandidate(ranges, offset, i)
    ensures Accepts(ranges[i], offset, size) <==> Covers(ranges[i], offset, size)
    ensures Accepts(ranges[i], offset, size) <==> Found(ranges, offset, size)
  {
    AcceptsIff(ranges[i], offset, size);
  }

  predicate Disjoint(ranges: seq<Range>) {
    forall i, j :: 0 <= i < j < |ranges| ==> ranges[i].End() <= ranges[j].offset
  }

  /** In a list of disjoint ranges a non-empty request is found exactly when some range
      covers it, and that range is the only one. */
  lemma DisjointFound(ranges: seq<Range>, offset: nat, size: nat, i: nat)
    requires Disjoint(ranges) && Sorted(ranges) && size > 0
    requires i < |ranges| && Covers(ranges[i], offset, size)
    ensures IsCandidate(ranges, offset, i)
    ensures forall j :: 0 <= j < |ranges| && j != i ==> !Covers(ranges[j], offset, size)
  {
    forall j | 0 <= j < |ranges| && j != i
      ensures !Covers(ranges[j], offset, size)
      ensures i < j ==> offset < ranges[j].offset
    {
      if i < j {
        assert ranges[i].End() <= ranges[j].offset;
      } else {
        assert ranges[j].End() <= ranges[i].offset;
      }
    }
  }

  /** A range nested in an earlier one hides the rest of it. */
  lemma OverlapMisses()
    ensures var ranges := [Range(0, 100), Range(10, 10)];
            Sorted(ranges) && Covers(ranges[0], 50, 10) && !Found(ranges, 50, 10)
  {
    var ranges := [Range(0, 100), Range(10, 10)];
    assert !IsCandidate(ranges, 50, 0) by { assert ranges[1].offset <= 50; }
  }

  /** A range that starts inside an earlier one reaches at least as far. */
  predicate NoneNested(ranges: seq<Range>) {
    forall i, j :: 0 <= i < j < |ranges| && ranges[j].offset < ranges[i].End() ==> ranges[i].End() <= ranges[j].End()
  }

  /** The lookup finds a range for every request that some range covers. */
  ghost predicate NeverMisses(ranges: seq<Range>) {
    forall i: nat, offset: nat, size: nat ::
      i < |ranges| && size > 0 && Covers(ranges[i], offset, size) ==> Found(ranges, offset, size)
  }

  lemma {:induction false} LastCandidate(ranges: seq<Range>, offset: nat, i: nat) returns (c: nat)
    requires StrictlySorted(ranges) && i < |ranges| && ranges[i].offset <= offset
    ensures i <= c && IsCandidate(ranges, offset, c)
    decreases |ranges| - i
  {
    if i + 1 < |ranges| && ranges[i + 1].offset <= offset {
      c := LastCandidate(ranges, offset, i + 1);
    } else {
      c := i;
    }
  }

  /** The lookup misses no covered request exactly when no range is nested in an earlier
      one that reaches further. */
  lemma NeverMissesIff(ranges: seq<Range>)
    requires StrictlySorted(ranges)
    ensures NeverMisses(ranges) <==> NoneNested(ranges)
  {
    if NoneNested(ranges) {
      forall i: nat, offset: nat, size: nat | i < |ranges| && size > 0 && Covers(ranges[i], offset, size)
        ensures Found(ranges, offset, size)
      {
        var c := LastCandidate(ranges, offset, i);
        assert Covers(ranges[c], offset, size);
      }
    }
    if NeverMisses(ranges) {
      forall i: nat, j: nat | i < j < |ranges| && ranges[j].offset < ranges[i].End()
        ensures ranges[i].End() <= ranges[j].End()
      {
        var offset, size := ranges[j].offset, ranges[i].End() - ranges[j].offset;
        assert ranges[i].offset < ranges[j].offset;
        assert Covers(ranges[i], offset, size);
        assert Found(ranges, offset, size);
        var c: nat :| IsCandidate(ranges, offset, c) && Covers(ranges[c], offset, size);
        assert c == j;
      }
    }
  }

  // ---- Physical ranges ---------------------------------------------------------------

  const IO_BLOCK_SIZE: nat := 4096

  function RoundDown(n: nat): nat { n - n % IO_BLOCK_SIZE }

  function RoundUp(n: nat): nat { RoundDown(n + IO_BLOCK_SIZE - 1) }

  /** The range a direct-IO read of local disk uses: both ends moved out to block
      boundaries, the end at most one past the last block of the file. The size is an
      unsigned 64-bit difference. */
  function AlignedRange(logical: Range, fileSize: nat): Range {
    var start, end := RoundDown(logical.offset), Min(RoundUp(logical.End()), RoundUp(fileSize));
    Range(start, (end - start) % WORD)
  }

  /** The range an object store read uses: cut off at the end of the object. */
  function ClippedRange(logical: Range, fileSize: nat): Range {
    Range(logical.offset, if logical.offset >= fileSize then 0 else Min(logical.size, fileSize - logical.offset))
  }

  /** The physical range starts no later than the logical one and reaches its end or
      the end of the file. */
  predicate Backs(physical: Range, logical: Range, fileSize: nat) {
    physical.offset <= logical.offset && Min(logical.End(), fileSize) <= physical.End()
  }

  lemma RoundsToBlocks(n: nat)
    ensures RoundDown(n) % IO_BLOCK_SIZE == 0 && n - IO_BLOCK_SIZE < RoundDown(n) <= n
    ensures RoundUp(n) % IO_BLOCK_SIZE == 0 && n <= RoundUp(n) < n + IO_BLOCK_SIZE
  {
  }

  /** The physical ranges are no larger than they must be. A clipped range is what the logical
      range and the file have in common. A block-aligned one that does not wrap starts and ends
      at block boundaries less than a block away from that. */
  lemma PhysicalRangesTight(logical: Range, fileSize: nat)
    requires logical.End() + IO_BLOCK_SIZE < WORD && RoundDown(logical.offset) <= RoundUp(fileSize)
    ensures var clipped := ClippedRange(logical, fileSize);
            && clipped.offset == logical.offset
            && clipped.End() == if logical.offset < fileSize then Min(logical.End(), fileSize) else logical.offset
    ensures var aligned := AlignedRange(logical, fileSize);
            && aligned.offset % IO_BLOCK_SIZE == 0 && aligned.End() % IO_BLOCK_SIZE == 0
            && logical.offset - IO_BLOCK_SIZE < aligned.offset <= logical.offset
            && Min(logical.End(), fileSize) <= aligned.End() < Min(logical.End(), fileSize) + IO_BLOCK_SIZE
  {
    hide RoundUp, RoundDown, AlignedRange;
    RoundsToBlocks(logical.offset);
    RoundsToBlocks(logical.End());
    RoundsToBlocks(fileSize);
    AlignedIs(logical, fileSize);
  }

  /** Without a wrap the ends of an aligned range are the rounded ones. */
  lemma AlignedIs(logical: Range, fileSize: nat)
    requires logical.End() + IO_BLOCK_SIZE < WORD && RoundDown(logical.offset) <= RoundUp(fileSize)
    ensures var aligned := AlignedRange(logical, fileSize);
            aligned.offset == RoundDown(logical.offset) &&
              aligned.End() == Min(RoundUp(logical.End()), RoundUp(fileSize))
  {
    RoundsToBlocks(logical.End());
    RoundedOrder(logical.offset, logical.End());
    hide RoundUp, RoundDown;
    var size := Min(RoundUp(logical.End()), RoundUp(fileSize)) - RoundDown(logical.offset);
    ModUnique(size, WORD, 0, size);
  }

  lemma RoundedOrder(m: nat, n: nat)
    requires m <= n
    ensures RoundDown(m) <= RoundUp(n)
  {
  }

  /** A clipped range always backs its logical range. A block-aligned range does so and
      stays within the file's blocks exactly when the logical range starts no later than
      the end of the file's last block; past that point the size wraps around. */
  lemma PhysicalRangesBack(logical: Range, fileSize: nat)
    requires logical.End() + IO_BLOCK_SIZE < 0x8000_0000_0000_0000 && fileSize + IO_BLOCK_SIZE < 0x8000_0000_0000_0000
    ensures Backs(ClippedRange(logical, fileSize), logical, fileSize)
    ensures Backs(AlignedRange(logical, fileSize), logical, fileSize)
    ensures AlignedRange(logical, fileSize).End() <= RoundUp(fileSize) <==>
            RoundDown(logical.offset) <= RoundUp(fileSize)
  {
    var start, end := RoundDown(logical.offset), Min(RoundUp(logical.End()), RoundUp(fileSize));
    assert logical.End() <= RoundUp(logical.End()) && fileSize <= RoundUp(fileSize);
    assert RoundDown(logical.offset) <= logical.offset;
    if start <= end {
      ModUnique(end - start, WORD, 0, end - start);
    } else {
      ModUnique(end - start, WORD, -1, end - start + WORD);
    }
  }
}
