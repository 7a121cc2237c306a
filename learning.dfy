/** The learning engine (learning.py): per-zhuyin phrase counts, per-character
    bigram counts and a session log. Python's nested `defaultdict(int)` maps
    keep insertion order, so each becomes a sequence of groups, one per
    outer key, each holding its tallies in the order they were first
    counted. The JSON stats file is the value `stored`: what the next start
    would load. */
module Learning {
  import opened Common
  import opened Sorting
  import opened Table
  import opened Candidates

  /** One inner entry: a phrase (or next character) and its count. */
  datatype Tally = Tally(name: string, count: int)

  /** One outer entry: a zhuyin (or previous character) and its tallies. */
  datatype Group = Group(key: string, tallies: seq<Tally>)

  type Counts = seq<Group>

  /** The `phrase_usage` and `bigram_usage` maps as a value, as exported to
      and imported from JSON. */
  datatype Snapshot = Snapshot(phraseUsage: Counts, bigramUsage: Counts)

  datatype Selection = Selection(zhuyin: string, phrase: string)

  datatype Statistics = Statistics(totalSelections: int, uniquePhrases: int, uniqueZhuyin: nat, sessionCount: nat)

  function TallyName(t: Tally): string {
    t.name
  }

  function GroupKey(g: Group): string {
    g.key
  }

  /** Dictionary keys are unique at both levels, and an outer key exists only
      once something was counted under it. */
  predicate ValidCounts(m: Counts) {
    && UniqueBy(GroupKey, m)
    && forall g :: g in m ==> g.tallies != [] && UniqueBy(TallyName, g.tallies)
  }

  /** `d.get(name, 0)` on one group's tallies. */
  function TallyCount(ts: seq<Tally>, name: string): (r: int)
    ensures (forall t :: t in ts ==> t.name != name) ==> r == 0
    ensures r != 0 ==> exists t :: t in ts && t.name == name && t.count == r
    ensures UniqueBy(TallyName, ts) ==> forall t :: t in ts && t.name == name ==> r == t.count
  {
    forall t | UniqueBy(TallyName, ts) && t in ts && t.name == name ensures LookupBy(TallyName, ts, name) == Some(t) {
      LookupUnique(TallyName, ts, t);
    }
    match LookupBy(TallyName, ts, name)
    case None => 0
    case Some(t) => t.count
  }

  /** `m.get(k1, {}).get(k2, 0)`: zero when either key is absent. */
  function Count(m: Counts, k1: string, k2: string): (r: int)
    ensures (forall g :: g in m ==> g.key != k1) ==> r == 0
    ensures (forall g, t :: g in m && g.key == k1 && t in g.tallies ==> t.name != k2) ==> r == 0
    ensures r != 0 ==> exists g :: g in m && g.key == k1 && exists t :: t in g.tallies && t.name == k2 && t.count == r
    ensures ValidCounts(m) ==> forall g, t :: g in m && g.key == k1 && t in g.tallies && t.name == k2 ==> r == t.count
  {
    forall g | ValidCounts(m) && g in m && g.key == k1 ensures LookupBy(GroupKey, m, k1) == Some(g) {
      LookupUnique(GroupKey, m, g);
    }
    match LookupBy(GroupKey, m, k1)
    case None => 0
    case Some(g) => TallyCount(g.tallies, k2)
  }

  function AddTo(amount: int): Tally -> Tally {
    (t: Tally) => t.(count := t.count + amount)
  }

  function BumpGroup(k2: string, amount: int): Group -> Group {
    (g: Group) => g.(tallies := Upsert(TallyName, g.tallies, Tally(k2, amount), AddTo(amount)))
  }

  /** `m[k1][k2] += amount` on a nested `defaultdict(int)`: missing keys are
      created (appended) with count zero first. */
  function Bump(m: Counts, k1: string, k2: string, amount: int): Counts {
    Upsert(GroupKey, m, Group(k1, [Tally(k2, amount)]), BumpGroup(k2, amount))
  }

  /** `+=` raises exactly the one count, by exactly `amount`. */
  lemma BumpCount(m: Counts, k1: string, k2: string, amount: int, a: string, b: string)
    ensures Count(Bump(m, k1, k2, amount), a, b) == Count(m, a, b) + (if a == k1 && b == k2 then amount else 0)
  {
    var f := BumpGroup(k2, amount);
    assert forall x :: GroupKey(f(x)) == GroupKey(x);
    assert forall x :: TallyName(AddTo(amount)(x)) == TallyName(x);
    UpsertLookup(GroupKey, m, Group(k1, [Tally(k2, amount)]), f, a);
    if a == k1 {
      match LookupBy(GroupKey, m, k1)
      case None =>
        assert LookupBy(TallyName, [Tally(k2, amount)], b) == if b == k2 then Some(Tally(k2, amount)) else None;
      case Some(g) =>
        UpsertLookup(TallyName, g.tallies, Tally(k2, amount), AddTo(amount), b);
    }
  }

  lemma UpsertTalliesValid(ts: seq<Tally>, k2: string, amount: int)
    requires ts != [] && UniqueBy(TallyName, ts)
    ensures var r := Upsert(TallyName, ts, Tally(k2, amount), AddTo(amount));
      r != [] && UniqueBy(TallyName, r)
  {
    assert forall x :: TallyName(AddTo(amount)(x)) == TallyName(x);
    UpsertLookup(TallyName, ts, Tally(k2, amount), AddTo(amount), k2);
  }

  /** Counting keeps both levels' keys unique and no group empty. */
  lemma BumpValid(m: Counts, k1: string, k2: string, amount: int)
    requires ValidCounts(m)
    ensures ValidCounts(Bump(m, k1, k2, amount))
  {
    var f := BumpGroup(k2, amount);
    var row := Group(k1, [Tally(k2, amount)]);
    assert forall x :: GroupKey(f(x)) == GroupKey(x);
    UpsertLookup(GroupKey, m, row, f, k1);
    var r := Bump(m, k1, k2, amount);
    if LookupBy(GroupKey, m, k1).Some? {
      assert r == UpdateWhere(GroupKey, m, k1, f);
      forall g | g in r ensures g.tallies != [] && UniqueBy(TallyName, g.tallies) {
        var i :| 0 <= i < |r| && r[i] == g;
        assert m[i] in m;
        if m[i].key == k1 {
          UpsertTalliesValid(m[i].tallies, k2, amount);
        }
      }
    } else {
      assert r == m + [row];
      assert forall g :: g in r ==> g in m || g == row;
    }
  }

  /** Adds one group's tallies under key `k`, in order. */
  function MergeTallies(m: Counts, k: string, ts: seq<Tally>): Counts
    decreases |ts|
  {
    if ts == [] then m else MergeTallies(Bump(m, k, ts[0].name, ts[0].count), k, ts[1..])
  }

  /** The nested loops of `import_data`: every imported count is added in. */
  function MergeCounts(m: Counts, groups: seq<Group>): Counts
    decreases |groups|
  {
    if groups == [] then m else MergeCounts(MergeTallies(m, groups[0].key, groups[0].tallies), groups[1..])
  }

  lemma {:induction false} MergeTalliesValid(m: Counts, k: string, ts: seq<Tally>)
    requires ValidCounts(m)
    ensures ValidCounts(MergeTallies(m, k, ts))
    decreases |ts|
  {
    if ts != [] {
      BumpValid(m, k, ts[0].name, ts[0].count);
      MergeTalliesValid(Bump(m, k, ts[0].name, ts[0].count), k, ts[1..]);
    }
  }

  lemma {:induction false} MergeCountsValid(m: Counts, groups: seq<Group>)
    requires ValidCounts(m)
    ensures ValidCounts(MergeCounts(m, groups))
    decreases |groups|
  {
    if groups != [] {
      MergeTalliesValid(m, groups[0].key, groups[0].tallies);
      MergeCountsValid(MergeTallies(m, groups[0].key, groups[0].tallies), groups[1..]);
    }
  }

  /** With unique names, a group's count of `name` splits into its first
      tally's share and the rest's. */
  lemma TallyCountCons(ts: seq<Tally>, name: string)
    requires ts != [] && UniqueBy(TallyName, ts)
    ensures TallyCount(ts, name) == (if ts[0].name == name then ts[0].count else 0) + TallyCount(ts[1..], name)
  {
    if ts[0].name == name {
      assert forall i :: 0 <= i < |ts[1..]| ==> ts[1..][i] == ts[i + 1];
    }
  }

  lemma CountCons(groups: seq<Group>, a: string, b: string)
    requires groups != [] && UniqueBy(GroupKey, groups)
    ensures Count(groups, a, b) == (if groups[0].key == a then TallyCount(groups[0].tallies, b) else 0) + Count(groups[1..], a, b)
  {
    if groups[0].key == a {
      assert forall i :: 0 <= i < |groups[1..]| ==> groups[1..][i] == groups[i + 1];
    }
  }

  lemma {:induction false} MergeTalliesCount(m: Counts, k: string, ts: seq<Tally>, a: string, b: string)
    requires UniqueBy(TallyName, ts)
    ensures Count(MergeTallies(m, k, ts), a, b) == Count(m, a, b) + (if a == k then TallyCount(ts, b) else 0)
    decreases |ts|
  {
    if ts != [] {
      var m' := Bump(m, k, ts[0].name, ts[0].count);
      BumpCount(m, k, ts[0].name, ts[0].count, a, b);
      assert UniqueBy(TallyName, ts[1..]) by {
        assert forall i :: 0 <= i < |ts[1..]| ==> ts[1..][i] == ts[i + 1];
      }
      MergeTalliesCount(m', k, ts[1..], a, b);
      TallyCountCons(ts, b);
    }
  }

  /** `import_data` with `merge=True` adds every imported count to the
      current one. */
  lemma {:induction false} MergeCountsAdds(m: Counts, groups: seq<Group>, a: string, b: string)
    requires ValidCounts(groups)
    ensures Count(MergeCounts(m, groups), a, b) == Count(m, a, b) + Count(groups, a, b)
    decreases |groups|
  {
    if groups != [] {
      var g := groups[0];
      assert g in groups;
      MergeTalliesCount(m, g.key, g.tallies, a, b);
      assert ValidCounts(groups[1..]) by {
        assert forall i :: 0 <= i < |groups[1..]| ==> groups[1..][i] == groups[i + 1];
      }
      MergeCountsAdds(MergeTallies(m, g.key, g.tallies), groups[1..], a, b);
      CountCons(groups, a, b);
    }
  }

  /** An update on the last row, whose key no earlier row has, rewrites just
      that row. */
  lemma UpdateLast(acc: Counts, g: Group, f: Group -> Group)
    requires forall x :: x in acc ==> x.key != g.key
    ensures UpdateWhere(GroupKey, acc + [g], g.key, f) == acc + [f(g)]
  {
    var r := UpdateWhere(GroupKey, acc + [g], g.key, f);
    forall i | 0 <= i < |acc| ensures r[i] == acc[i] {
      assert (acc + [g])[i] == acc[i] && acc[i] in acc;
    }
  }

  /** A fresh name counted under the last group, the only one with its key,
      is appended to that group. */
  lemma BumpLastFresh(acc: Counts, k: string, ts0: seq<Tally>, t: Tally)
    requires forall x :: x in acc ==> x.key != k
    requires forall u :: u in ts0 ==> u.name != t.name
    ensures Bump(acc + [Group(k, ts0)], k, t.name, t.count) == acc + [Group(k, ts0 + [t])]
  {
    var g := Group(k, ts0);
    assert LookupBy(TallyName, ts0, t.name).None?;
    assert Upsert(TallyName, ts0, Tally(t.name, t.count), AddTo(t.count)) == ts0 + [t];
    LookupAppend(GroupKey, acc, g, k);
    assert Bump(acc + [g], k, t.name, t.count) == UpdateWhere(GroupKey, acc + [g], k, BumpGroup(t.name, t.count));
    UpdateLast(acc, g, BumpGroup(t.name, t.count));
  }

  /** A count under a key not yet present opens a new last group. */
  lemma BumpFreshKey(acc: Counts, k: string, t: Tally)
    requires forall x :: x in acc ==> x.key != k
    ensures Bump(acc, k, t.name, t.count) == acc + [Group(k, [t])]
  {
    assert LookupBy(GroupKey, acc, k).None?;
  }

  /** Tallies with fresh names are appended to a group that is the last and
      only one with its key. */
  lemma {:induction false} MergeTalliesInto(acc: Counts, k: string, ts0: seq<Tally>, ts: seq<Tally>)
    requires forall x :: x in acc ==> x.key != k
    requires UniqueBy(TallyName, ts0 + ts)
    ensures MergeTallies(acc + [Group(k, ts0)], k, ts) == acc + [Group(k, ts0 + ts)]
    decreases |ts|
  {
    if ts == [] {
      assert ts0 + ts == ts0;
    } else {
      var t := ts[0];
      var all := ts0 + ts;
      assert all[|ts0|] == t;
      assert forall u :: u in ts0 ==> u.name != t.name by {
        forall u | u in ts0 ensures u.name != t.name {
          var i :| 0 <= i < |ts0| && ts0[i] == u;
          assert all[i] == u;
        }
      }
      BumpLastFresh(acc, k, ts0, t);
      AppendHead(ts0, ts);
      MergeTalliesInto(acc, k, ts0 + [t], ts[1..]);
    }
  }

  /** In valid counts, the groups after `acc` have keys `acc` lacks. */
  lemma FreshAfter(acc: Counts, groups: seq<Group>)
    requires groups != [] && ValidCounts(acc + groups)
    ensures forall x :: x in acc ==> x.key != groups[0].key
    ensures groups[0].tallies != [] && UniqueBy(TallyName, groups[0].tallies)
    ensures ValidCounts((acc + [groups[0]]) + groups[1..])
  {
    var all := acc + groups;
    assert all[|acc|] == groups[0] && groups[0] in all;
    forall x | x in acc ensures x.key != groups[0].key {
      var i :| 0 <= i < |acc| && acc[i] == x;
      assert all[i] == x;
    }
    assert (acc + [groups[0]]) + groups[1..] == all;
  }

  /** A group whose key is new is merged in as it stands. */
  lemma MergeFreshGroup(acc: Counts, g: Group)
    requires forall x :: x in acc ==> x.key != g.key
    requires g.tallies != [] && UniqueBy(TallyName, g.tallies)
    ensures MergeTallies(acc, g.key, g.tallies) == acc + [g]
  {
    var t := g.tallies[0];
    BumpFreshKey(acc, g.key, t);
    assert [t] + g.tallies[1..] == g.tallies;
    MergeTalliesInto(acc, g.key, [t], g.tallies[1..]);
  }

  lemma AppendHead<T>(acc: seq<T>, s: seq<T>)
    requires s != []
    ensures (acc + [s[0]]) + s[1..] == acc + s
  {
  }

  /** Merging groups into counts that lack their keys appends them. */
  lemma {:induction false} MergeCountsFresh(acc: Counts, groups: seq<Group>)
    requires ValidCounts(acc + groups)
    ensures MergeCounts(acc, groups) == acc + groups
    decreases |groups|
  {
    if groups == [] {
      assert acc + groups == acc;
    } else {
      var g := groups[0];
      FreshAfter(acc, groups);
      MergeFreshGroup(acc, g);
      var next := acc + [g];
      MergeCountsFresh(next, groups[1..]);
      AppendHead(acc, groups);
    }
  }

  /** Importing an exported snapshot with `merge=False` reproduces it. */
  lemma ImportExportRoundTrip(m: Counts)
    requires ValidCounts(m)
    ensures MergeCounts([], m) == m
  {
    assert [] + m == m;
    MergeCountsFresh([], m);
  }

  /** The tally of maximal count that comes first: Python's `max` keeps the
      first of equal maxima. */
  function MaxTally(ts: seq<Tally>): (r: Tally)
    requires ts != []
    ensures r in ts
    ensures forall t :: t in ts ==> t.count <= r.count
    ensures exists i :: 0 <= i < |ts| && ts[i] == r && forall j :: 0 <= j < i ==> ts[j].count < r.count
  {
    var i := MaxIndex(ts);
    assert forall t :: t in ts ==> exists j :: 0 <= j < |ts| && ts[j] == t;
    ts[i]
  }

  /** The index of the first tally of maximal count. */
  function MaxIndex(ts: seq<Tally>): (i: nat)
    requires ts != []
    ensures i < |ts|
    ensures forall j :: 0 <= j < |ts| ==> ts[j].count <= ts[i].count
    ensures forall j :: 0 <= j < i ==> ts[j].count < ts[i].count
  {
    if |ts| == 1 then 0
    else
      var k := MaxIndex(ts[1..]);
      assert forall j :: 1 <= j < |ts| ==> ts[j] == ts[1..][j - 1];
      if ts[0].count >= ts[k + 1].count then 0 else k + 1
  }

  /** `name` has a tally of the highest count among `ts`. */
  predicate IsMaxName(ts: seq<Tally>, name: string) {
    exists t :: t in ts && t.name == name && forall u :: u in ts ==> u.count <= t.count
  }

  /** Orders tallies by count, highest first. */
  predicate MoreCount(a: Tally, b: Tally) {
    a.count >= b.count
  }

  lemma MoreCountTotal()
    ensures TotalPreorder(MoreCount)
  {
  }

  /** The sum of `w` over `s`. */
  function SumBy<T>(w: T -> int, s: seq<T>): int {
    if s == [] then 0 else w(s[0]) + SumBy(w, s[1..])
  }

  lemma {:induction false} SumAppend<T>(w: T -> int, s: seq<T>, x: T)
    ensures SumBy(w, s + [x]) == SumBy(w, s) + w(x)
  {
    if s != [] {
      assert (s + [x])[1..] == s[1..] + [x];
      SumAppend(w, s[1..], x);
    }
  }

  /** Rewriting the one row with key `k` shifts the sum by what the rewrite
      adds. */
  lemma {:induction false} SumUpdateWhere<T(!new), K>(key: T -> K, w: T -> int, rows: seq<T>, k: K, f: T -> T, delta: int)
    requires UniqueBy(key, rows)
    requires forall x :: x in rows && key(x) == k ==> w(f(x)) == w(x) + delta
    ensures SumBy(w, UpdateWhere(key, rows, k, f)) == SumBy(w, rows) + (if LookupBy(key, rows, k).Some? then delta else 0)
  {
    if rows != [] {
      var r := UpdateWhere(key, rows, k, f);
      assert r[1..] == UpdateWhere(key, rows[1..], k, f);
      assert forall x :: x in rows[1..] ==> x in rows;
      assert UniqueBy(key, rows[1..]) by {
        assert forall i :: 0 <= i < |rows[1..]| ==> rows[1..][i] == rows[i + 1];
      }
      SumUpdateWhere(key, w, rows[1..], k, f, delta);
      assert rows[0] in rows;
      if key(rows[0]) == k {
        assert LookupBy(key, rows[1..], k).None?;
      }
    }
  }

  /** A tally count is raised by `amount`, so the tallies' sum is too. */
  lemma SumUpsertTallies(ts: seq<Tally>, k2: string, amount: int)
    requires UniqueBy(TallyName, ts)
    ensures SumBy(CountOf, Upsert(TallyName, ts, Tally(k2, amount), AddTo(amount))) == SumBy(CountOf, ts) + amount
  {
    var w := CountOf;
    assert forall x :: x in ts && TallyName(x) == k2 ==> w(AddTo(amount)(x)) == w(x) + amount;
    if LookupBy(TallyName, ts, k2).Some? {
      SumUpdateWhere(TallyName, w, ts, k2, AddTo(amount), amount);
    } else {
      SumAppend(w, ts, Tally(k2, amount));
    }
  }

  function CountOf(t: Tally): int {
    t.count
  }

  function GroupTotal(g: Group): int {
    SumBy(CountOf, g.tallies)
  }

  function GroupSize(g: Group): int {
    |g.tallies|
  }

  /** The number of selections counted in `m`. */
  function TotalCount(m: Counts): int {
    SumBy(GroupTotal, m)
  }

  /** Counting one more selection raises the total by exactly `amount`. */
  lemma TotalBump(m: Counts, k1: string, k2: string, amount: int)
    requires ValidCounts(m)
    ensures TotalCount(Bump(m, k1, k2, amount)) == TotalCount(m) + amount
  {
    var w := GroupTotal;
    var f := BumpGroup(k2, amount);
    if LookupBy(GroupKey, m, k1).Some? {
      forall x | x in m && GroupKey(x) == k1 ensures w(f(x)) == w(x) + amount {
        SumUpsertTallies(x.tallies, k2, amount);
      }
      SumUpdateWhere(GroupKey, w, m, k1, f, amount);
    } else {
      assert Bump(m, k1, k2, amount) == m + [Group(k1, [Tally(k2, amount)])];
      SumAppend(w, m, Group(k1, [Tally(k2, amount)]));
      var t := Tally(k2, amount);
      assert [t][1..] == [];
      assert SumBy(CountOf, [t]) == CountOf(t) + SumBy(CountOf, []);
      assert GroupTotal(Group(k1, [t])) == amount;
    }
  }

  /** The merge loop of `import_data`, over one of the two maps. */
  method MergeLoop(m: Counts, groups: seq<Group>) returns (r: Counts)
    ensures r == MergeCounts(m, groups)
  {
    r := m;
    for i := 0 to |groups|
      invariant MergeCounts(r, groups[i..]) == MergeCounts(m, groups)
    {
      var g := groups[i];
      assert groups[i..][1..] == groups[i + 1..];
      for j := 0 to |g.tallies|
        invariant MergeCounts(MergeTallies(r, g.key, g.tallies[j..]), groups[i + 1..]) == MergeCounts(m, groups)
      {
        assert g.tallies[j..][1..] == g.tallies[j + 1..];
        r := Bump(r, g.key, g.tallies[j].name, g.tallies[j].count);
      }
    }
  }

  const SaveEvery := 10

  class LearningEngine {
    var phraseUsage: Counts
    var bigramUsage: Counts
    var session: seq<Selection>
    /** The content of the stats file: what the next start would load. */
    var stored: Snapshot

    ghost predicate Valid()
      reads this
    {
      ValidCounts(phraseUsage) && ValidCounts(bigramUsage)
    }

    /** Starts from the stored stats; a missing or unreadable file is the
        empty snapshot. The loading loops copy each count, which for JSON
        objects (unique keys) is merging into empty maps. */
    constructor (stored: Snapshot)
      ensures Valid()
      ensures phraseUsage == MergeCounts([], stored.phraseUsage)
      ensures bigramUsage == MergeCounts([], stored.bigramUsage)
      ensures session == [] && this.stored == stored
    {
      MergeCountsValid([], stored.phraseUsage);
      MergeCountsValid([], stored.bigramUsage);
      phraseUsage := MergeCounts([], stored.phraseUsage);
      bigramUsage := MergeCounts([], stored.bigramUsage);
      session := [];
      this.stored := stored;
    }

    /** `record_selection`: one more use of the phrase, one more use of the
        bigram (previous character, first character of the phrase) when
        both are non-empty, one more session entry, and a save whenever the
        session length reaches a multiple of ten. */
    method RecordSelection(zhuyin: string, phrase: string, prevChar: string := "")
      requires Valid()
      modifies this
      ensures Valid()
      ensures phraseUsage == Bump(old(phraseUsage), zhuyin, phrase, 1)
      ensures bigramUsage == if prevChar != "" && phrase != "" then Bump(old(bigramUsage), prevChar, [phrase[0]], 1) else old(bigramUsage)
      ensures session == old(session) + [Selection(zhuyin, phrase)]
      ensures stored == if |session| % SaveEvery == 0 then Snapshot(phraseUsage, bigramUsage) else old(stored)
    {
      BumpValid(phraseUsage, zhuyin, phrase, 1);
      phraseUsage := Bump(phraseUsage, zhuyin, phrase, 1);
      if prevChar != "" && phrase != "" {
        BumpValid(bigramUsage, prevChar, [phrase[0]], 1);
        bigramUsage := Bump(bigramUsage, prevChar, [phrase[0]], 1);
      }
      session := session + [Selection(zhuyin, phrase)];
      if |session| % SaveEvery == 0 {
        stored := Snapshot(phraseUsage, bigramUsage);
      }
    }

    /** `get_preference_score`: the use count, or 0 when never counted. */
    function GetPreferenceScore(zhuyin: string, phrase: string): (r: int)
      reads this
      ensures (forall g, t :: g in phraseUsage && g.key == zhuyin && t in g.tallies ==> t.name != phrase) ==> r == 0
      ensures r != 0 ==> exists g :: g in phraseUsage && g.key == zhuyin && exists t :: t in g.tallies && t.name == phrase && t.count == r
      ensures Valid() ==> forall g, t :: g in phraseUsage && g.key == zhuyin && t in g.tallies && t.name == phrase ==> r == t.count
    {
      Count(phraseUsage, zhuyin, phrase)
    }

    /** `get_bigram_score`: the bigram count, or 0 when never counted. */
    function GetBigramScore(prevChar: string, nextChar: string): (r: int)
      reads this
      ensures (forall g, t :: g in bigramUsage && g.key == prevChar && t in g.tallies ==> t.name != nextChar) ==> r == 0
      ensures r != 0 ==> exists g :: g in bigramUsage && g.key == prevChar && exists t :: t in g.tallies && t.name == nextChar && t.count == r
      ensures Valid() ==> forall g, t :: g in bigramUsage && g.key == prevChar && t in g.tallies && t.name == nextChar ==> r == t.count
    {
      Count(bigramUsage, prevChar, nextChar)
    }

    /** `get_preferred_phrase`: None exactly when nothing was counted for the
        zhuyin, otherwise the first phrase of highest count. */
    function GetPreferredPhrase(zhuyin: string): (r: Option<string>)
      reads this
      ensures Valid() ==> (r.None? <==> forall g :: g in phraseUsage ==> g.key != zhuyin)
      ensures r.Some? ==> exists g :: g in phraseUsage && g.key == zhuyin && IsMaxName(g.tallies, r.value)
      ensures Valid() ==> forall g :: g in phraseUsage && g.key == zhuyin && g.tallies != [] ==> r == Some(MaxTally(g.tallies).name)
    {
      forall g | Valid() && g in phraseUsage && g.key == zhuyin ensures LookupBy(GroupKey, phraseUsage, zhuyin) == Some(g) {
        LookupUnique(GroupKey, phraseUsage, g);
      }
      match LookupBy(GroupKey, phraseUsage, zhuyin)
      case None => None
      case Some(g) =>
        if g.tallies == [] then None
        else
          var t := MaxTally(g.tallies);
          assert IsMaxName(g.tallies, t.name);
          Some(t.name)
    }

    /** `get_likely_next_chars`: the characters counted after `prevChar`,
        highest count first (ties in first-counted order), cut by the
        Python slice `[:limit]`. */
    function GetLikelyNextChars(prevChar: string, limit: int := 5): (r: seq<Tally>)
      reads this
      ensures (forall g :: g in bigramUsage ==> g.key != prevChar) ==> r == []
      ensures Sorted(MoreCount, r)
      ensures r != [] ==> exists g :: g in bigramUsage && g.key == prevChar && IsSortedSlice(MoreCount, g.tallies, r, limit)
      ensures Valid() ==> forall g :: g in bigramUsage && g.key == prevChar ==> IsSortedSlice(MoreCount, g.tallies, r, limit)
    {
      forall g | Valid() && g in bigramUsage && g.key == prevChar ensures LookupBy(GroupKey, bigramUsage, prevChar) == Some(g) {
        LookupUnique(GroupKey, bigramUsage, g);
      }
      match LookupBy(GroupKey, bigramUsage, prevChar)
      case None => []
      case Some(g) =>
        if g.tallies == [] then []
        else
          MoreCountTotal();
          var r := SortedSlice(MoreCount, g.tallies, limit);
          assert IsSortedSlice(MoreCount, g.tallies, r, limit);
          r
    }

    /** The frequency `adjust_candidate_scores` gives a candidate: 100 per
        recorded use, plus 50 per recorded bigram from `prevChar` to the
        candidate's first character when both are non-empty. */
    function Adjusted(c: Candidate, prevChar: string): (r: Candidate)
      reads this
      ensures r.phrase == c.phrase && r.zhuyin == c.zhuyin && r.source == c.source && r.isExact == c.isExact
      ensures prevChar == "" || c.phrase == "" ==> r.frequency == c.frequency + 100 * GetPreferenceScore(c.zhuyin, c.phrase)
      ensures prevChar != "" && c.phrase != "" ==>
        r.frequency == c.frequency + 100 * GetPreferenceScore(c.zhuyin, c.phrase) + 50 * GetBigramScore(prevChar, [c.phrase[0]])
    {
      var bonus := if prevChar != "" && c.phrase != "" then 50 * GetBigramScore(prevChar, [c.phrase[0]]) else 0;
      c.(frequency := c.frequency + 100 * GetPreferenceScore(c.zhuyin, c.phrase) + bonus)
    }

    /** `adjust_candidate_scores`: every candidate re-scored, in the same
        order. */
    method AdjustCandidateScores(candidates: seq<Candidate>, prevChar: string := "") returns (r: seq<Candidate>)
      ensures |r| == |candidates|
      ensures forall i :: 0 <= i < |r| ==> r[i] == Adjusted(candidates[i], prevChar)
    {
      r := candidates;
      for i := 0 to |r|
        invariant |r| == |candidates|
        invariant forall k :: 0 <= k < i ==> r[k] == Adjusted(candidates[k], prevChar)
        invariant forall k :: i <= k < |r| ==> r[k] == candidates[k]
      {
        var c := Rescore(r[i], prevChar);
        r := r[i := c];
      }
    }

    /** The loop body of `adjust_candidate_scores` for one candidate. */
    method Rescore(c: Candidate, prevChar: string) returns (d: Candidate)
      ensures d == Adjusted(c, prevChar)
    {
      d := c.(frequency := c.frequency + GetPreferenceScore(c.zhuyin, c.phrase) * 100);
      if prevChar != "" && c.phrase != "" {
        d := d.(frequency := d.frequency + GetBigramScore(prevChar, [c.phrase[0]]) * 50);
      }
    }

    /** `clear_learning_data`: both maps and the session emptied, and the
        stats file removed, so nothing is loaded on the next start. */
    method ClearLearningData()
      modifies this
      ensures Valid()
      ensures phraseUsage == [] && bigramUsage == [] && session == []
      ensures stored == Snapshot([], [])
    {
      phraseUsage := [];
      bigramUsage := [];
      session := [];
      stored := Snapshot([], []);
    }

    /** `export_data`: the two maps as a value. */
    function ExportData(): (r: Snapshot)
      reads this
      ensures Valid() ==> ValidCounts(r.phraseUsage) && ValidCounts(r.bigramUsage)
      ensures r.phraseUsage == phraseUsage && r.bigramUsage == bigramUsage
    {
      Snapshot(phraseUsage, bigramUsage)
    }

    /** `import_data`: with `merge` the imported counts are added to the
        current ones, without it both maps are cleared first; then the stats
        are saved. */
    method ImportData(data: Snapshot, merge: bool := true)
      requires Valid()
      modifies this
      ensures Valid()
      ensures phraseUsage == MergeCounts(if merge then old(phraseUsage) else [], data.phraseUsage)
      ensures bigramUsage == MergeCounts(if merge then old(bigramUsage) else [], data.bigramUsage)
      ensures session == old(session)
      ensures stored == Snapshot(phraseUsage, bigramUsage)
    {
      if !merge {
        phraseUsage := [];
        bigramUsage := [];
      }
      MergeCountsValid(phraseUsage, data.phraseUsage);
      MergeCountsValid(bigramUsage, data.bigramUsage);
      phraseUsage := MergeLoop(phraseUsage, data.phraseUsage);
      bigramUsage := MergeLoop(bigramUsage, data.bigramUsage);
      stored := Snapshot(phraseUsage, bigramUsage);
    }

    /** `get_statistics`. */
    function GetStatistics(): (r: Statistics)
      reads this
      ensures r.totalSelections == TotalCount(phraseUsage)
      ensures r.uniqueZhuyin == |phraseUsage| && r.sessionCount == |session|
      ensures Valid() ==> r.uniquePhrases >= r.uniqueZhuyin
      ensures Valid() ==> r.uniquePhrases == |Pairs(phraseUsage)|
    {
      PhrasesAtLeastGroups(phraseUsage);
      PairsCount(phraseUsage);
      Statistics(TotalCount(phraseUsage), SumBy(GroupSize, phraseUsage), |phraseUsage|, |session|)
    }
  }

  /** Every group holds a phrase, so there are at least as many phrases as
      zhuyin keys. */
  lemma {:induction false} PhrasesAtLeastGroups(m: Counts)
    ensures (forall g :: g in m ==> g.tallies != []) ==> SumBy(GroupSize, m) >= |m|
  {
    if m != [] {
      assert forall g :: g in m[1..] ==> g in m;
      PhrasesAtLeastGroups(m[1..]);
      assert m[0] in m;
    }
  }

  /** The (outer key, inner key) pairs counted in `m`. */
  ghost function Pairs(m: Counts): set<(string, string)> {
    set g, t | g in m && t in g.tallies :: (g.key, t.name)
  }

  ghost function TallyPairs(k: string, ts: seq<Tally>): set<(string, string)> {
    set t | t in ts :: (k, t.name)
  }

  lemma TallyPairsCons(k: string, ts: seq<Tally>)
    requires ts != []
    ensures TallyPairs(k, ts) == {(k, ts[0].name)} + TallyPairs(k, ts[1..])
  {
    assert forall t :: t in ts <==> t == ts[0] || t in ts[1..] by {
      assert ts == [ts[0]] + ts[1..];
    }
  }

  lemma PairsCons(m: Counts)
    requires m != []
    ensures Pairs(m) == TallyPairs(m[0].key, m[0].tallies) + Pairs(m[1..])
  {
    assert forall g :: g in m <==> g == m[0] || g in m[1..] by {
      assert m == [m[0]] + m[1..];
    }
  }

  /** With unique names, a group contributes one pair per tally. */
  lemma {:induction false} TallyPairsCount(k: string, ts: seq<Tally>)
    requires UniqueBy(TallyName, ts)
    ensures |TallyPairs(k, ts)| == |ts|
    decreases |ts|
  {
    if ts == [] {
      assert TallyPairs(k, ts) == {};
    } else {
      UniqueTail(TallyName, ts);
      TallyPairsCount(k, ts[1..]);
      TallyPairsCons(k, ts);
      assert (k, ts[0].name) !in TallyPairs(k, ts[1..]);
    }
  }

  /** `sum(len(inner) for inner in m.values())` counts the distinct pairs,
      since keys are unique at both levels. */
  lemma {:induction false} PairsCount(m: Counts)
    ensures ValidCounts(m) ==> SumBy(GroupSize, m) == |Pairs(m)|
    decreases |m|
  {
    if m == [] {
      assert Pairs(m) == {};
    } else if ValidCounts(m) {
      var tail := m[1..];
      UniqueTail(GroupKey, m);
      assert forall g :: g in tail ==> g in m;
      PairsCount(tail);
      assert m[0] in m;
      var head := TallyPairs(m[0].key, m[0].tallies);
      TallyPairsCount(m[0].key, m[0].tallies);
      PairsCons(m);
      assert head * Pairs(tail) == {};
    }
  }
}
