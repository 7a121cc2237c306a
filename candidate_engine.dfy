/** The candidate engine (candidate_engine.py): it merges the user's
    preferences, exact and prefix matches and associated phrases into one
    ranked list, caches it per (zhuyin, context), and keeps a window of
    recent output for the "smart" variant. */
module Candidates {
  import opened Common
  import opened Sorting
  import opened Table
  import opened PhraseDb

  datatype Source = Learned | User | System | Other(name: string)

  datatype Candidate = Candidate(phrase: string, zhuyin: string, frequency: int, source: Source, isExact: bool)

  // ---------------------------------------------------------------------
  // Ranking (`_sort_candidates`)

  /** Two to four characters score best, then one character, then the rest. */
  function LengthScore(n: nat): int {
    if 2 <= n <= 4 then 5000 else if n == 1 then 3000 else 1000
  }

  function SourceScore(s: Source): int {
    match s
    case Learned => 8000
    case User => 6000
    case System => 4000
    case Other(_) => 0
  }

  /** The summed sort key; the list is sorted by it, highest first. */
  function Score(c: Candidate): int {
    (if c.isExact then 10000 else 0) + LengthScore(|c.phrase|) + SourceScore(c.source) + c.frequency
  }

  /** What the sort key rewards: an exact match is worth 10000 more than the
      same candidate as a partial match, a learned candidate 4000 more than
      a system one, two to four characters 2000 more than one and 4000 more
      than five or more, and frequency counts one for one. */
  lemma ScoreComponents(c: Candidate)
    ensures Score(c.(isExact := true)) == Score(c.(isExact := false)) + 10000
    ensures Score(c.(source := Learned)) == Score(c.(source := System)) + 4000
    ensures Score(c.(source := User)) == Score(c.(source := System)) + 2000
    ensures 2 <= |c.phrase| <= 4 ==> Score(c) == Score(c.(phrase := [c.phrase[0]])) + 2000
    ensures |c.phrase| >= 5 ==> Score(c.(phrase := c.phrase[..2])) == Score(c) + 4000
    ensures forall f :: Score(c.(frequency := f)) == Score(c) + f - c.frequency
  {
  }

  predicate RanksFirst(a: Candidate, b: Candidate) {
    Score(a) >= Score(b)
  }

  lemma RanksFirstTotal()
    ensures TotalPreorder(RanksFirst)
  {
  }

  /** `_sort_candidates`: Python's stable `sorted` on the negated score. */
  function SortCandidates(cs: seq<Candidate>): (r: seq<Candidate>)
    ensures Sorted(RanksFirst, r)
    ensures multiset(r) == multiset(cs)
    ensures forall e :: SameRank(RanksFirst, e, r) == SameRank(RanksFirst, e, cs)
  {
    RanksFirstTotal();
    SortSorted(RanksFirst, cs);
    SortStableAll(RanksFirst, cs);
    Sort(RanksFirst, cs)
  }

  /** Sorting and then `[:limit]`: the best-ranked candidates, in rank
      order, none of those cut ranking above one kept. */
  function Ranked(cs: seq<Candidate>, limit: int): (r: seq<Candidate>)
    ensures IsSortedSlice(RanksFirst, cs, r, limit)
  {
    RanksFirstTotal();
    SortedSlice(RanksFirst, cs, limit)
  }

  // ---------------------------------------------------------------------
  // Gathering (`get_candidates`, steps 1 to 4)

  /** A candidate on offer, with the phrase `seen` records for it. */
  datatype Proposal = Proposal(seenAs: string, candidate: Candidate)

  /** A preferred phrase: high weight from its use count, marked learned and
      exact. */
  function PreferenceCandidate(zhuyin: string, h: HistoryRow): Candidate {
    Candidate(h.phrase, zhuyin, 10000 + h.useCount * 100, Learned, true)
  }

  function ExactCandidate(row: PhraseRow): Candidate {
    Candidate(row.phrase, row.zhuyin, row.frequency, System, true)
  }

  /** A prefix match at half its frequency (Python's `//`, which for a
      positive divisor agrees with Dafny's `/`). */
  function PrefixCandidate(row: PhraseRow): Candidate {
    Candidate(row.phrase, row.zhuyin, row.frequency / 2, System, false)
  }

  /** An associated phrase without its first character, at a third of its
      frequency. */
  function AssociativeCandidate(row: PhraseRow): Candidate {
    Candidate(if row.phrase == "" then "" else row.phrase[1..], row.zhuyin, row.frequency / 3, System, false)
  }

  function PreferenceProposals(zhuyin: string, prefs: seq<HistoryRow>): seq<Proposal> {
    seq(|prefs|, i requires 0 <= i < |prefs| => Proposal(prefs[i].phrase, PreferenceCandidate(zhuyin, prefs[i])))
  }

  function ExactProposals(rows: seq<PhraseRow>): seq<Proposal> {
    seq(|rows|, i requires 0 <= i < |rows| => Proposal(rows[i].phrase, ExactCandidate(rows[i])))
  }

  function PrefixProposals(rows: seq<PhraseRow>): seq<Proposal> {
    seq(|rows|, i requires 0 <= i < |rows| => Proposal(rows[i].phrase, PrefixCandidate(rows[i])))
  }

  /** Associated phrases that start with `lastChar`; `seen` records the whole
      phrase, not the shortened candidate. */
  function AssociativeProposals(rows: seq<PhraseRow>, lastChar: string): seq<Proposal> {
    if rows == [] then []
    else
      (if IsPrefix(lastChar, rows[0].phrase) then [Proposal(rows[0].phrase, AssociativeCandidate(rows[0]))] else [])
      + AssociativeProposals(rows[1..], lastChar)
  }

  /** The loop shared by the four sources: each proposal whose phrase has not
      been seen is appended, and its phrase is marked seen. */
  function AddUnseen(acc: seq<Candidate>, seen: set<string>, ps: seq<Proposal>): (r: (seq<Candidate>, set<string>))
    decreases |ps|
  {
    if ps == [] then (acc, seen)
    else if ps[0].seenAs in seen then AddUnseen(acc, seen, ps[1..])
    else AddUnseen(acc + [ps[0].candidate], seen + {ps[0].seenAs}, ps[1..])
  }

  /** Steps 1 and 2, which take every preference and every exact match
      whatever `limit` is. */
  function LearnedAndExact(zhuyin: string, prefs: seq<HistoryRow>, exact: seq<PhraseRow>): (seq<Candidate>, set<string>) {
    var s1 := AddUnseen([], {}, PreferenceProposals(zhuyin, prefs));
    AddUnseen(s1.0, s1.1, ExactProposals(exact))
  }

  /** Steps 1 to 3: preferences, exact matches and, while the list is short
      of `limit`, prefix matches. */
  function GatherDirect(zhuyin: string, limit: int, prefs: seq<HistoryRow>, exact: seq<PhraseRow>, prefix: seq<PhraseRow>)
    : (seq<Candidate>, set<string>)
  {
    var s2 := LearnedAndExact(zhuyin, prefs, exact);
    if |s2.0| < limit then AddUnseen(s2.0, s2.1, PrefixProposals(prefix)) else s2
  }

  /** The unsorted list `get_candidates` builds from the four query results:
      step 4 adds associated phrases when there is a context and room. */
  function Gather(zhuyin: string, context: string, limit: int, prefs: seq<HistoryRow>,
                  exact: seq<PhraseRow>, prefix: seq<PhraseRow>, assoc: seq<PhraseRow>): seq<Candidate>
  {
    var s3 := GatherDirect(zhuyin, limit, prefs, exact, prefix);
    if context != "" && |s3.0| < limit then
      AddUnseen(s3.0, s3.1, AssociativeProposals(assoc, LastChar(context))).0
    else s3.0
  }

  /** `context[-1]` as a one-character string; empty for an empty context. */
  function LastChar(context: string): (r: string)
    ensures |r| <= 1 && (context != "" <==> |r| == 1)
    ensures r != "" ==> r[0] == context[|context| - 1]
  {
    if context == "" then "" else [context[|context| - 1]]
  }

  predicate DistinctPhrases(cs: seq<Candidate>) {
    forall i, j :: 0 <= i < j < |cs| ==> cs[i].phrase != cs[j].phrase
  }

  /** Every proposal is recorded in `seen` under its own phrase. */
  predicate SeenAsPhrase(ps: seq<Proposal>) {
    forall i :: 0 <= i < |ps| ==> ps[i].seenAs == ps[i].candidate.phrase
  }

  /** While every proposal is recorded under its own phrase, the loop never
      appends a phrase twice. */
  lemma {:induction false} AddUnseenDistinct(acc: seq<Candidate>, seen: set<string>, ps: seq<Proposal>)
    requires DistinctPhrases(acc) && (forall i :: 0 <= i < |acc| ==> acc[i].phrase in seen)
    requires SeenAsPhrase(ps)
    ensures DistinctPhrases(AddUnseen(acc, seen, ps).0)
    ensures forall i :: 0 <= i < |AddUnseen(acc, seen, ps).0| ==> AddUnseen(acc, seen, ps).0[i].phrase in AddUnseen(acc, seen, ps).1
    decreases |ps|
  {
    if ps != [] {
      if ps[0].seenAs in seen {
        AddUnseenDistinct(acc, seen, ps[1..]);
      } else {
        var acc' := acc + [ps[0].candidate];
        assert forall i :: 0 <= i < |acc'| ==> acc'[i].phrase in seen + {ps[0].seenAs};
        AddUnseenDistinct(acc', seen + {ps[0].seenAs}, ps[1..]);
      }
    }
  }

  /** The loop only appends: what was there stays in front, and everything
      after it is one of the proposals. */
  lemma {:induction false} AddUnseenExtends(acc: seq<Candidate>, seen: set<string>, ps: seq<Proposal>)
    ensures IsPrefix(acc, AddUnseen(acc, seen, ps).0)
    ensures forall c :: c in AddUnseen(acc, seen, ps).0 ==> c in acc || exists i :: 0 <= i < |ps| && ps[i].candidate == c
    decreases |ps|
  {
    if ps != [] {
      var acc' := if ps[0].seenAs in seen then acc else acc + [ps[0].candidate];
      var seen' := if ps[0].seenAs in seen then seen else seen + {ps[0].seenAs};
      AddUnseenExtends(acc', seen', ps[1..]);
      var r := AddUnseen(acc, seen, ps).0;
      assert r == AddUnseen(acc', seen', ps[1..]).0;
      assert r[..|acc|] == r[..|acc'|][..|acc|];
      forall c | c in r ensures c in acc || exists i :: 0 <= i < |ps| && ps[i].candidate == c {
        if c !in acc && c !in acc' {
          var i :| 0 <= i < |ps[1..]| && ps[1..][i].candidate == c;
          assert ps[i + 1].candidate == c;
        } else if c !in acc {
          assert ps[0].candidate == c;
        }
      }
    }
  }

  /** Candidates from preferences, exact matches and prefix matches never
      repeat a phrase. */
  lemma DirectDistinct(zhuyin: string, limit: int, prefs: seq<HistoryRow>, exact: seq<PhraseRow>, prefix: seq<PhraseRow>)
    ensures DistinctPhrases(GatherDirect(zhuyin, limit, prefs, exact, prefix).0)
  {
    var s1 := AddUnseen([], {}, PreferenceProposals(zhuyin, prefs));
    AddUnseenDistinct([], {}, PreferenceProposals(zhuyin, prefs));
    var s2 := AddUnseen(s1.0, s1.1, ExactProposals(exact));
    AddUnseenDistinct(s1.0, s1.1, ExactProposals(exact));
    if |s2.0| < limit {
      AddUnseenDistinct(s2.0, s2.1, PrefixProposals(prefix));
    }
  }

  /** Where each candidate comes from, and how it was rescaled: a
      preference, an exact match, a prefix match, or an associated phrase
      that starts with the context's last character. The direct candidates
      come first, and associated phrases appear only with a non-empty
      context and only when the direct ones left room under `limit`. */
  lemma GatherProvenance(zhuyin: string, context: string, limit: int, prefs: seq<HistoryRow>,
                         exact: seq<PhraseRow>, prefix: seq<PhraseRow>, assoc: seq<PhraseRow>)
    ensures var direct := GatherDirect(zhuyin, limit, prefs, exact, prefix).0;
      var all := Gather(zhuyin, context, limit, prefs, exact, prefix, assoc);
      && IsPrefix(direct, all)
      && ((context == "" || |direct| >= limit) ==> all == direct)
      && forall c :: c in all ==>
           || (exists h :: h in prefs && c == PreferenceCandidate(zhuyin, h))
           || (exists row :: row in exact && c == ExactCandidate(row))
           || (exists row :: row in prefix && c == PrefixCandidate(row))
           || (exists row :: row in assoc && IsPrefix(LastChar(context), row.phrase) && c == AssociativeCandidate(row))
  {
    var p1 := PreferenceProposals(zhuyin, prefs);
    var s1 := AddUnseen([], {}, p1);
    AddUnseenExtends([], {}, p1);
    var p2 := ExactProposals(exact);
    var s2 := AddUnseen(s1.0, s1.1, p2);
    AddUnseenExtends(s1.0, s1.1, p2);
    var p3 := PrefixProposals(prefix);
    AddUnseenExtends(s2.0, s2.1, p3);
    var direct := GatherDirect(zhuyin, limit, prefs, exact, prefix);
    var all := Gather(zhuyin, context, limit, prefs, exact, prefix, assoc);
    if context != "" && |direct.0| < limit {
      var last := LastChar(context);
      AddUnseenExtends(direct.0, direct.1, AssociativeProposals(assoc, last));
      AssociativeFrom(assoc, last);
    }
    forall c | c in all
      ensures || (exists h :: h in prefs && c == PreferenceCandidate(zhuyin, h))
              || (exists row :: row in exact && c == ExactCandidate(row))
              || (exists row :: row in prefix && c == PrefixCandidate(row))
              || (exists row :: row in assoc && IsPrefix(LastChar(context), row.phrase) && c == AssociativeCandidate(row))
    {
      if c in direct.0 {
        if c in s2.0 {
          if c in s1.0 {
            var i :| 0 <= i < |p1| && p1[i].candidate == c;
            assert prefs[i] in prefs;
          } else {
            var i :| 0 <= i < |p2| && p2[i].candidate == c;
            assert exact[i] in exact;
          }
        } else {
          var i :| 0 <= i < |p3| && p3[i].candidate == c;
          assert prefix[i] in prefix;
        }
      } else {
        var p4 := AssociativeProposals(assoc, LastChar(context));
        var i :| 0 <= i < |p4| && p4[i].candidate == c;
        assert p4[i] in p4;
      }
    }
  }

  /** Every phrase in `phrases` is the phrase of some candidate in `cs`. */
  predicate Covers(cs: seq<Candidate>, phrases: set<string>) {
    forall x :: x in phrases ==> exists c :: c in cs && c.phrase == x
  }

  /** The loop marks every proposal's phrase seen, and each phrase it has
      seen has a candidate, so no proposal is lost except as a repeat. */
  lemma {:induction false} AddUnseenCovers(acc: seq<Candidate>, seen: set<string>, ps: seq<Proposal>)
    requires Covers(acc, seen) && SeenAsPhrase(ps)
    ensures Covers(AddUnseen(acc, seen, ps).0, AddUnseen(acc, seen, ps).1)
    ensures seen <= AddUnseen(acc, seen, ps).1
    ensures forall i :: 0 <= i < |ps| ==> ps[i].seenAs in AddUnseen(acc, seen, ps).1
    decreases |ps|
  {
    if ps != [] {
      var tail := ps[1..];
      assert SeenAsPhrase(tail) by {
        forall i | 0 <= i < |tail| ensures tail[i].seenAs == tail[i].candidate.phrase {
          assert tail[i] == ps[i + 1];
        }
      }
      var acc' := if ps[0].seenAs in seen then acc else acc + [ps[0].candidate];
      var seen' := if ps[0].seenAs in seen then seen else seen + {ps[0].seenAs};
      assert Covers(acc', seen') by {
        forall x | x in seen' ensures exists c :: c in acc' && c.phrase == x {
          if x in seen {
            var c :| c in acc && c.phrase == x;
            assert c in acc';
          } else {
            assert ps[0].candidate in acc' && ps[0].candidate.phrase == x;
          }
        }
      }
      AddUnseenCovers(acc', seen', tail);
      assert AddUnseen(acc, seen, ps) == AddUnseen(acc', seen', tail);
      forall i | 0 <= i < |ps| ensures ps[i].seenAs in AddUnseen(acc, seen, ps).1 {
        if i > 0 {
          assert ps[i] == tail[i - 1];
        }
      }
    }
  }

  /** Steps 1 and 2 keep a candidate for every preferred and every exact
      phrase. */
  lemma LearnedAndExactCovers(zhuyin: string, prefs: seq<HistoryRow>, exact: seq<PhraseRow>)
    ensures var s2 := LearnedAndExact(zhuyin, prefs, exact);
      && Covers(s2.0, s2.1)
      && (forall h :: h in prefs ==> h.phrase in s2.1)
      && (forall row :: row in exact ==> row.phrase in s2.1)
  {
    var p1 := PreferenceProposals(zhuyin, prefs);
    var s1 := AddUnseen([], {}, p1);
    AddUnseenCovers([], {}, p1);
    var p2 := ExactProposals(exact);
    AddUnseenCovers(s1.0, s1.1, p2);
    forall h | h in prefs ensures h.phrase in s1.1 {
      var i :| 0 <= i < |prefs| && prefs[i] == h;
      assert p1[i].seenAs == h.phrase;
    }
    forall row | row in exact ensures row.phrase in LearnedAndExact(zhuyin, prefs, exact).1 {
      var i :| 0 <= i < |exact| && exact[i] == row;
      assert p2[i].seenAs == row.phrase;
    }
  }

  /** The converse of `GatherProvenance`: every preferred and every exact
      phrase has a candidate in the gathered list, since steps 1 and 2 do not
      stop at `limit`; and when they left the list short of `limit`, so does
      every prefix match. Only repeats of a phrase already taken are
      dropped. */
  lemma GatherComplete(zhuyin: string, context: string, limit: int, prefs: seq<HistoryRow>,
                       exact: seq<PhraseRow>, prefix: seq<PhraseRow>, assoc: seq<PhraseRow>)
    ensures var all := Gather(zhuyin, context, limit, prefs, exact, prefix, assoc);
      && (forall h :: h in prefs ==> exists c :: c in all && c.phrase == h.phrase)
      && (forall row :: row in exact ==> exists c :: c in all && c.phrase == row.phrase)
      && (|LearnedAndExact(zhuyin, prefs, exact).0| < limit ==>
            forall row :: row in prefix ==> exists c :: c in all && c.phrase == row.phrase)
  {
    var s2 := LearnedAndExact(zhuyin, prefs, exact);
    LearnedAndExactCovers(zhuyin, prefs, exact);
    var direct := GatherDirect(zhuyin, limit, prefs, exact, prefix);
    var p3 := PrefixProposals(prefix);
    if |s2.0| < limit {
      AddUnseenCovers(s2.0, s2.1, p3);
      forall row | row in prefix ensures row.phrase in direct.1 {
        var i :| 0 <= i < |prefix| && prefix[i] == row;
        assert p3[i].seenAs == row.phrase;
      }
    }
    assert Covers(direct.0, direct.1) && s2.1 <= direct.1;
    var all := Gather(zhuyin, context, limit, prefs, exact, prefix, assoc);
    if context != "" && |direct.0| < limit {
      AddUnseenExtends(direct.0, direct.1, AssociativeProposals(assoc, LastChar(context)));
    }
    assert forall c :: c in direct.0 ==> c in all;
  }

  /** Each associated proposal comes from a row that starts with `lastChar`. */
  lemma {:induction false} AssociativeFrom(rows: seq<PhraseRow>, lastChar: string)
    ensures forall p :: p in AssociativeProposals(rows, lastChar) ==>
      exists row :: row in rows && IsPrefix(lastChar, row.phrase) && p == Proposal(row.phrase, AssociativeCandidate(row))
  {
    if rows != [] {
      AssociativeFrom(rows[1..], lastChar);
      var head := if IsPrefix(lastChar, rows[0].phrase) then [Proposal(rows[0].phrase, AssociativeCandidate(rows[0]))] else [];
      assert AssociativeProposals(rows, lastChar) == head + AssociativeProposals(rows[1..], lastChar);
      assert rows[0] in rows;
      assert forall row :: row in rows[1..] ==> row in rows;
    }
  }

  /** Associated candidates are not de-duplicated against the others: with
      context "大", the exact match 家 and the associated phrase 大家 both
      yield the candidate 家. */
  lemma AssociativeMayRepeat()
    ensures var exact := [PhraseRow("ㄐㄧㄚ", "家", 500, 1)];
      var assoc := [PhraseRow("ㄉㄚˋ ㄐㄧㄚ", "大家", 900, 2)];
      var cs := Gather("ㄐㄧㄚ", "大", 50, [], exact, [], assoc);
      cs == [ExactCandidate(exact[0]), AssociativeCandidate(assoc[0])]
      && cs[0].phrase == cs[1].phrase
  {
    var exact := [PhraseRow("ㄐㄧㄚ", "家", 500, 1)];
    var assoc := [PhraseRow("ㄉㄚˋ ㄐㄧㄚ", "大家", 900, 2)];
    var e := ExactCandidate(exact[0]);
    var a := AssociativeCandidate(assoc[0]);
    assert PreferenceProposals("ㄐㄧㄚ", []) == [];
    assert AddUnseen([], {}, []) == ([], {});
    var p2 := ExactProposals(exact);
    assert p2 == [Proposal("家", e)];
    assert p2[1..] == [];
    assert [] + [e] == [e];
    var none: set<string> := {};
    assert none + {"家"} == {"家"};
    assert AddUnseen([e], {"家"}, p2[1..]) == ([e], {"家"});
    assert AddUnseen([], {}, p2) == ([e], {"家"});
    assert PrefixProposals([]) == [];
    assert GatherDirect("ㄐㄧㄚ", 50, [], exact, []) == ([e], {"家"});
    assert LastChar("大") == "大";
    assert IsPrefix("大", "大家");
    var p4 := AssociativeProposals(assoc, "大");
    assert p4 == [Proposal("大家", a)];
    assert p4[1..] == [];
    assert [e] + [a] == [e, a];
    assert {"家"} + {"大家"} == {"家", "大家"};
    assert "大家" !in {"家"};
    assert AddUnseen([e, a], {"家", "大家"}, p4[1..]) == ([e, a], {"家", "大家"});
    assert AddUnseen([e], {"家"}, p4) == ([e, a], {"家", "大家"});
    assert "大家"[1..] == "家";
  }

  // ---------------------------------------------------------------------
  // The query cache

  datatype CacheEntry = CacheEntry(key: string, value: seq<Candidate>)

  function EntryKey(e: CacheEntry): string {
    e.key
  }

  const CacheSize := 100

  /** The cache key `f"{zhuyin}:{context}"`. */
  function CacheKey(zhuyin: string, context: string): string {
    zhuyin + ":" + context
  }

  /** A zhuyin without ':' and its context are told apart by the key. */
  lemma CacheKeyInjective(z1: string, c1: string, z2: string, c2: string)
    requires ':' !in z1 && ':' !in z2
    requires CacheKey(z1, c1) == CacheKey(z2, c2)
    ensures z1 == z2 && c1 == c2
  {
    var k := CacheKey(z1, c1);
    ColonPosition(z1, c1);
    ColonPosition(z2, c2);
    assert |z1| == |z2|;
    assert z1 == k[..|z1|] && z2 == k[..|z2|];
    assert c1 == k[|z1| + 1..] && c2 == k[|z2| + 1..];
  }

  /** The first ':' in a key ends the zhuyin, when the zhuyin has none. */
  lemma ColonPosition(z: string, c: string)
    requires ':' !in z
    ensures |z| < |CacheKey(z, c)| && CacheKey(z, c)[|z|] == ':'
    ensures forall i :: 0 <= i < |z| ==> CacheKey(z, c)[i] != ':'
  {
    assert forall i :: 0 <= i < |z| ==> z[i] in z;
  }

  /** Keys are not told apart when the zhuyin itself holds ':'. */
  lemma CacheKeyCollision()
    ensures CacheKey("a:b", "") == CacheKey("a", "b:")
  {
  }

  /** `_update_cache` for a key not yet cached: a full cache first drops its
      oldest entry. */
  function CacheInsert(cache: seq<CacheEntry>, key: string, value: seq<Candidate>): (r: seq<CacheEntry>)
    requires UniqueBy(EntryKey, cache) && LookupBy(EntryKey, cache, key).None?
    ensures UniqueBy(EntryKey, r)
    ensures |cache| <= CacheSize ==> |r| <= CacheSize
    ensures LookupBy(EntryKey, r, key) == Some(CacheEntry(key, value))
    ensures |cache| < CacheSize ==> r == cache + [CacheEntry(key, value)]
    ensures |cache| >= CacheSize ==> r == cache[1..] + [CacheEntry(key, value)]
  {
    var kept := if |cache| >= CacheSize then cache[1..] else cache;
    assert forall e :: e in kept ==> e in cache;
    InsertOrIgnoreLookup(EntryKey, kept, CacheEntry(key, value), key);
    assert InsertOrIgnore(EntryKey, kept, CacheEntry(key, value)) == kept + [CacheEntry(key, value)];
    kept + [CacheEntry(key, value)]
  }

  /** `commit_selection`'s invalidation: every entry whose key contains the
      committed zhuyin is dropped. */
  function Invalidate(cache: seq<CacheEntry>, zhuyin: string): (r: seq<CacheEntry>)
    ensures UniqueBy(EntryKey, cache) ==> UniqueBy(EntryKey, r)
    ensures |r| <= |cache|
    ensures forall e :: e in r <==> e in cache && !exists i :: OccursAt(e.key, zhuyin, i)
    ensures r == Filter((e: CacheEntry) => !Contains(e.key, zhuyin), cache)
  {
    var keep := (e: CacheEntry) => !Contains(e.key, zhuyin);
    var r := Filter(keep, cache);
    assert UniqueBy(EntryKey, cache) ==> UniqueBy(EntryKey, r) by {
      if UniqueBy(EntryKey, cache) {
        FilterUnique(EntryKey, keep, cache);
      }
    }
    forall e: CacheEntry ensures Contains(e.key, zhuyin) <==> exists i :: OccursAt(e.key, zhuyin, i) {
      ContainsIff(e.key, zhuyin);
    }
    r
  }

  /** What one `get_candidates` call answers, given the cache before it and
      the list a fresh computation would give. */
  function Answer(cache: seq<CacheEntry>, zhuyin: string, context: string, computed: seq<Candidate>): seq<Candidate> {
    if zhuyin == "" then []
    else match LookupBy(EntryKey, cache, CacheKey(zhuyin, context))
      case Some(e) => e.value
      case None => computed
  }

  /** The cache after a `get_candidates` call that answered `r`: unchanged
      for an empty zhuyin or a hit, `r` cached under the request's key
      otherwise. */
  function NextCache(cache: seq<CacheEntry>, zhuyin: string, context: string, r: seq<Candidate>): (c: seq<CacheEntry>)
    requires UniqueBy(EntryKey, cache)
    ensures UniqueBy(EntryKey, c)
    ensures |cache| <= CacheSize ==> |c| <= CacheSize
  {
    if zhuyin == "" || LookupBy(EntryKey, cache, CacheKey(zhuyin, context)).Some? then cache
    else CacheInsert(cache, CacheKey(zhuyin, context), r)
  }

  /** After a call, the request's key holds its answer, so repeating the
      request returns the same list whatever the tables hold by then. */
  lemma RepeatedQuery(cache: seq<CacheEntry>, zhuyin: string, context: string, computed: seq<Candidate>, later: seq<Candidate>)
    requires UniqueBy(EntryKey, cache)
    ensures var r := Answer(cache, zhuyin, context, computed);
      zhuyin != "" ==> LookupBy(EntryKey, NextCache(cache, zhuyin, context, r), CacheKey(zhuyin, context))
                       == Some(CacheEntry(CacheKey(zhuyin, context), r))
    ensures var r := Answer(cache, zhuyin, context, computed);
      Answer(NextCache(cache, zhuyin, context, r), zhuyin, context, later) == r
  {
    if zhuyin != "" {
      var key := CacheKey(zhuyin, context);
      var hit := LookupBy(EntryKey, cache, key);
      if hit.Some? {
        assert hit.value == CacheEntry(key, hit.value.value);
      }
    }
  }

  /** The cache key leaves out `limit`, so a cache hit can return more
      candidates than the caller asked for. */
  lemma CacheHitIgnoresLimit()
    ensures var c := Candidate("八", "ㄅㄚ", 1, System, true);
      var cache := [CacheEntry(CacheKey("ㄅㄚ", ""), [c, c])];
      |Answer(cache, "ㄅㄚ", "", Ranked([c, c], 1))| == 2 > 1
  {
    var c := Candidate("八", "ㄅㄚ", 1, System, true);
    var cache := [CacheEntry(CacheKey("ㄅㄚ", ""), [c, c])];
    assert LookupBy(EntryKey, cache, CacheKey("ㄅㄚ", "")) == Some(cache[0]);
  }

  // ---------------------------------------------------------------------
  // Single-character candidates

  function SingleCharCandidate(zhuyin: string, row: PhraseRow): Candidate {
    Candidate(row.phrase, zhuyin, row.frequency, System, true)
  }

  function SingleCharCandidates(zhuyin: string, rows: seq<PhraseRow>): seq<Candidate> {
    seq(|rows|, i requires 0 <= i < |rows| => SingleCharCandidate(zhuyin, rows[i]))
  }

  /** Drops the first candidate with this phrase, if any. */
  function RemoveFirst(cs: seq<Candidate>, phrase: string): (r: seq<Candidate>)
    ensures |r| <= |cs|
  {
    if cs == [] then []
    else if cs[0].phrase == phrase then cs[1..]
    else [cs[0]] + RemoveFirst(cs[1..], phrase)
  }

  /** The first candidate with `phrase` sits at `i`, or there is none and
      `i == |cs|`: removal cuts out exactly position `i`. */
  lemma RemoveFirstAt(cs: seq<Candidate>, phrase: string, i: nat)
    requires i <= |cs| && forall k :: 0 <= k < i ==> cs[k].phrase != phrase
    requires i < |cs| ==> cs[i].phrase == phrase
    ensures RemoveFirst(cs, phrase) == if i < |cs| then cs[..i] + cs[i + 1..] else cs
  {
    if i < |cs| {
      RemoveFirstFound(cs, phrase, i);
    } else {
      RemoveFirstAbsent(cs, phrase);
    }
  }

  lemma {:induction false} RemoveFirstFound(cs: seq<Candidate>, phrase: string, i: nat)
    requires i < |cs| && cs[i].phrase == phrase
    requires forall k :: 0 <= k < i ==> cs[k].phrase != phrase
    ensures RemoveFirst(cs, phrase) == cs[..i] + cs[i + 1..]
    decreases i
  {
    if i == 0 {
      assert cs[..0] + cs[1..] == cs[1..];
    } else {
      var tail := cs[1..];
      assert cs[0].phrase != phrase;
      forall k | 0 <= k < i - 1
        ensures tail[k].phrase != phrase
      {
        assert tail[k] == cs[k + 1];
      }
      RemoveFirstFound(tail, phrase, i - 1);
      CutBehindHead(cs, i);
    }
  }

  lemma {:induction false} RemoveFirstAbsent(cs: seq<Candidate>, phrase: string)
    requires forall k :: 0 <= k < |cs| ==> cs[k].phrase != phrase
    ensures RemoveFirst(cs, phrase) == cs
  {
    if cs != [] {
      assert cs[0].phrase != phrase;
      RemoveFirstAbsent(cs[1..], phrase);
      assert cs == [cs[0]] + cs[1..];
    }
  }

  lemma CutBehindHead<T>(s: seq<T>, i: nat)
    requires 0 < i < |s|
    ensures s[..i] + s[i + 1..] == [s[0]] + (s[1..][..i - 1] + s[1..][i..])
  {
    assert s[..i] == [s[0]] + s[1..][..i - 1];
    assert s[i + 1..] == s[1..][i..];
  }

  /** One preference: a single-character phrase moves to the front with its
      learned weight; longer phrases are ignored. */
  function PromoteOne(zhuyin: string, cs: seq<Candidate>, h: HistoryRow): seq<Candidate> {
    if |h.phrase| == 1 then [PreferenceCandidate(zhuyin, h)] + RemoveFirst(cs, h.phrase) else cs
  }

  function PromoteAll(zhuyin: string, cs: seq<Candidate>, prefs: seq<HistoryRow>): seq<Candidate>
    decreases |prefs|
  {
    if prefs == [] then cs else PromoteAll(zhuyin, PromoteOne(zhuyin, cs, prefs[0]), prefs[1..])
  }

  /** The single-character preferences, as candidates, in preference order. */
  function Leaders(zhuyin: string, prefs: seq<HistoryRow>): seq<Candidate> {
    if prefs == [] then []
    else (if |prefs[0].phrase| == 1 then [PreferenceCandidate(zhuyin, prefs[0])] else []) + Leaders(zhuyin, prefs[1..])
  }

  function Reverse<T>(s: seq<T>): (r: seq<T>)
    ensures |r| == |s|
  {
    if s == [] then [] else Reverse(s[1..]) + [s[0]]
  }

  predicate DistinctPreferences(prefs: seq<HistoryRow>) {
    forall i, j :: 0 <= i < j < |prefs| ==> prefs[i].phrase != prefs[j].phrase
  }

  lemma {:induction false} RemoveFirstBehind(front: seq<Candidate>, rest: seq<Candidate>, phrase: string)
    requires forall k :: 0 <= k < |front| ==> front[k].phrase != phrase
    ensures RemoveFirst(front + rest, phrase) == front + RemoveFirst(rest, phrase)
    decreases |front|
  {
    if front != [] {
      var all := front + rest;
      assert all[0] == front[0] && all[0].phrase != phrase;
      assert all[1..] == front[1..] + rest;
      RemoveFirstBehind(front[1..], rest, phrase);
      calc {
        RemoveFirst(all, phrase);
        [all[0]] + RemoveFirst(all[1..], phrase);
        [front[0]] + (front[1..] + RemoveFirst(rest, phrase));
        ([front[0]] + front[1..]) + RemoveFirst(rest, phrase);
        { assert [front[0]] + front[1..] == front; }
        front + RemoveFirst(rest, phrase);
      }
    } else {
      assert front + rest == rest;
    }
  }

  lemma {:induction false} LeadersPhrases(zhuyin: string, prefs: seq<HistoryRow>)
    ensures forall c :: c in Leaders(zhuyin, prefs) ==> exists h :: h in prefs && c.phrase == h.phrase
  {
    if prefs != [] {
      LeadersPhrases(zhuyin, prefs[1..]);
      forall c | c in Leaders(zhuyin, prefs) ensures exists h :: h in prefs && c.phrase == h.phrase {
        if c in Leaders(zhuyin, prefs[1..]) {
          var h :| h in prefs[1..] && c.phrase == h.phrase;
          assert h in prefs;
        } else {
          assert prefs[0] in prefs;
        }
      }
    }
  }

  lemma ReverseMembers<T>(s: seq<T>)
    ensures forall x :: x in Reverse(s) <==> x in s
  {
    if s != [] {
      ReverseMembers(s[1..]);
      assert forall x :: x in s <==> x == s[0] || x in s[1..];
    }
  }

  /** Promotion keeps what it put in front: with distinct preferred phrases,
      the result starts with the single-character preferences in reverse
      preference order, followed by whatever led before. */
  lemma {:induction false} PromoteAllLeads(zhuyin: string, front: seq<Candidate>, rest: seq<Candidate>, prefs: seq<HistoryRow>)
    requires DistinctPreferences(prefs)
    requires forall k, j :: 0 <= k < |front| && 0 <= j < |prefs| ==> front[k].phrase != prefs[j].phrase
    ensures IsPrefix(Reverse(Leaders(zhuyin, prefs)) + front, PromoteAll(zhuyin, front + rest, prefs))
    decreases |prefs|
  {
    if prefs != [] {
      var h := prefs[0];
      var tail := prefs[1..];
      assert forall j :: 0 <= j < |tail| ==> tail[j] == prefs[j + 1];
      if |h.phrase| == 1 {
        assert forall k :: 0 <= k < |front| ==> front[k].phrase != h.phrase;
        RemoveFirstBehind(front, rest, h.phrase);
        var front' := [PreferenceCandidate(zhuyin, h)] + front;
        assert PromoteOne(zhuyin, front + rest, h) == front' + RemoveFirst(rest, h.phrase);
        assert forall k, j :: 0 <= k < |front'| && 0 <= j < |tail| ==> front'[k].phrase != tail[j].phrase by {
          forall k, j | 0 <= k < |front'| && 0 <= j < |tail| ensures front'[k].phrase != tail[j].phrase {
            if k > 0 {
              assert front'[k] == front[k - 1];
            }
          }
        }
        PromoteAllLeads(zhuyin, front', RemoveFirst(rest, h.phrase), tail);
        var lead := PreferenceCandidate(zhuyin, h);
        var back := Reverse(Leaders(zhuyin, tail));
        assert Leaders(zhuyin, prefs) == [lead] + Leaders(zhuyin, tail);
        assert Reverse(Leaders(zhuyin, prefs)) == back + [lead];
        SeqAssoc(back, [lead], front);
      } else {
        PromoteAllLeads(zhuyin, front, rest, tail);
        assert Leaders(zhuyin, prefs) == Leaders(zhuyin, tail);
      }
    }
  }

  // ---------------------------------------------------------------------
  // Recent output (SmartCandidateEngine)

  const MaxRecent := 10

  /** The last `MaxRecent` items of `s`. */
  function LastRecent(s: seq<string>): seq<string> {
    s[|s| - Min(MaxRecent, |s|)..]
  }

  /** Appending an output and popping the oldest when over the bound. */
  function PushRecent(recent: seq<string>, output: string): (r: seq<string>)
    requires |recent| <= MaxRecent
    ensures 1 <= |r| <= MaxRecent
    ensures r[|r| - 1] == output
  {
    var s := recent + [output];
    if |s| > MaxRecent then s[1..] else s
  }

  /** The window always holds the last ten outputs, oldest first. */
  lemma PushRecentWindow(outputs: seq<string>, output: string)
    ensures PushRecent(LastRecent(outputs), output) == LastRecent(outputs + [output])
  {
  }

  /** `''.join(self._recent_output[-3:])`. */
  function SmartContext(recent: seq<string>): (r: string)
    ensures recent == [] ==> r == ""
    ensures Concat(recent[..|recent| - Min(3, |recent|)]) + r == Concat(recent)
    ensures recent != [] ==> IsSuffix(recent[|recent| - 1], r)
  {
    var k := |recent| - Min(3, |recent|);
    var window := recent[k..];
    ConcatSplit(recent[..k], window);
    assert recent == recent[..k] + window;
    ConcatEndsWithLast(window);
    Concat(window)
  }

  /** `recent[-1][-1]` as a one-character string; empty without history or
      when the last output is empty. */
  function LastOutputChar(recent: seq<string>): (r: string)
    ensures r == "" <==> recent == [] || recent[|recent| - 1] == ""
    ensures r != "" ==> var last := recent[|recent| - 1]; r == [last[|last| - 1]]
  {
    if recent == [] || recent[|recent| - 1] == "" then ""
    else
      var last := recent[|recent| - 1];
      [last[|last| - 1]]
  }

  /** `phrase[1:] if phrase.startswith(last_char) else phrase`. */
  function ContinuationOf(lastChar: string, phrase: string): (r: string)
    ensures IsPrefix(lastChar, phrase) && phrase != "" ==> phrase == [phrase[0]] + r
    ensures !IsPrefix(lastChar, phrase) ==> r == phrase
  {
    if IsPrefix(lastChar, phrase) && phrase != "" then phrase[1..] else phrase
  }

  /** Whether a row leaves a non-empty continuation after `lastChar`. */
  function Continues(lastChar: string): PhraseRow -> bool {
    (row: PhraseRow) => ContinuationOf(lastChar, row.phrase) != ""
  }

  /** The system candidate a row's continuation becomes. */
  function ContinuationCandidate(lastChar: string): PhraseRow -> Candidate {
    (row: PhraseRow) => Candidate(ContinuationOf(lastChar, row.phrase), row.zhuyin, row.frequency, System, false)
  }

  /** `get_continuation_candidates` after the last output's last character:
      one system candidate per associated row whose continuation is not
      empty. */
  function Continuations(lastChar: string, rows: seq<PhraseRow>): (r: seq<Candidate>)
    ensures |r| <= |rows|
  {
    FilterMap(Continues(lastChar), ContinuationCandidate(lastChar), rows)
  }

  /** The continuations are, in order, those of the rows that leave a
      non-empty one, each carrying the part of its phrase after `lastChar`
      and keeping its row's zhuyin and frequency. */
  lemma ContinuationsInOrder(lastChar: string, rows: seq<PhraseRow>)
    ensures var r := Continuations(lastChar, rows);
      var kept := Filter(Continues(lastChar), rows);
      |r| == |kept| &&
      forall i :: 0 <= i < |r| ==>
        ContinuationOf(lastChar, kept[i].phrase) != "" &&
        r[i] == Candidate(ContinuationOf(lastChar, kept[i].phrase), kept[i].zhuyin, kept[i].frequency, System, false)
  {
    FilterMapInOrder(Continues(lastChar), ContinuationCandidate(lastChar), rows);
    var kept := Filter(Continues(lastChar), rows);
    assert forall i :: 0 <= i < |kept| ==> kept[i] in kept;
  }

  /** Every continuation candidate is a non-empty system phrase. */
  lemma ContinuationsShape(lastChar: string, rows: seq<PhraseRow>)
    ensures forall c :: c in Continuations(lastChar, rows) ==> c.phrase != "" && c.source == System && !c.isExact
  {
    ContinuationsInOrder(lastChar, rows);
  }

  // ---------------------------------------------------------------------
  // The engines

  class CandidateEngine {
    const phraseDb: PhraseDatabase
    const userDb: UserPhraseDatabase
    var cache: seq<CacheEntry>

    /** The two databases are separate files; the cache has unique keys and
        at most `CacheSize` entries. */
    ghost predicate Valid()
      reads this, phraseDb, userDb, userDb.phrases
    {
      && phraseDb.Valid() && userDb.Valid() && phraseDb != userDb.phrases
      && UniqueBy(EntryKey, cache) && |cache| <= CacheSize
    }

    constructor (phraseDb: PhraseDatabase, userDb: UserPhraseDatabase)
      requires phraseDb.Valid() && userDb.Valid() && phraseDb != userDb.phrases
      ensures Valid()
      ensures this.phraseDb == phraseDb && this.userDb == userDb && cache == []
    {
      this.phraseDb := phraseDb;
      this.userDb := userDb;
      cache := [];
    }

    /** The list a fresh `get_candidates` computes from the current tables. */
    function Fresh(zhuyin: string, context: string, limit: int): seq<Candidate>
      reads phraseDb, userDb
    {
      var last := LastChar(context);
      Ranked(Gather(zhuyin, context, limit,
                    userDb.GetUserPreference(zhuyin, 10),
                    phraseDb.Search(zhuyin, limit),
                    phraseDb.SearchPrefix(zhuyin, limit),
                    phraseDb.GetAssociatedPhrases(last, 10)), limit)
    }

    /** `get_candidates`: an empty zhuyin gives nothing and leaves the cache
        alone; a cached (zhuyin, context) gives the cached list; otherwise
        the ranked list is computed and cached, and a repeated query then
        returns it. */
    method GetCandidates(zhuyin: string, context: string := "", limit: int := 50) returns (r: seq<Candidate>)
      requires Valid()
      modifies this
      ensures Valid()
      ensures zhuyin == "" ==> r == []
      ensures zhuyin != "" && LookupBy(EntryKey, old(cache), CacheKey(zhuyin, context)).Some? ==>
                r == LookupBy(EntryKey, old(cache), CacheKey(zhuyin, context)).value.value
      ensures zhuyin != "" && LookupBy(EntryKey, old(cache), CacheKey(zhuyin, context)).None? ==>
                r == old(Fresh(zhuyin, context, limit))
      ensures cache == NextCache(old(cache), zhuyin, context, r)
    {
      if zhuyin == "" {
        return [];
      }
      var key := CacheKey(zhuyin, context);
      var hit := LookupBy(EntryKey, cache, key);
      if hit.Some? {
        return hit.value.value;
      }
      r := Compute(zhuyin, context, limit);
      cache := CacheInsert(cache, key, r);
      assert phraseDb.Valid() && userDb.Valid();
    }

    /** `get_candidates` on a cache miss: gather from the four queries, sort,
        and cut to `limit`. */
    method Compute(zhuyin: string, context: string, limit: int) returns (r: seq<Candidate>)
      requires Valid()
      ensures r == Fresh(zhuyin, context, limit)
    {
      var prefs := userDb.GetUserPreference(zhuyin, 10);
      var exact := phraseDb.Search(zhuyin, limit);
      var prefix := phraseDb.SearchPrefix(zhuyin, limit);
      var assoc := phraseDb.GetAssociatedPhrases(LastChar(context), 10);
      var gathered := GatherLoop(zhuyin, context, limit, prefs, exact, prefix, assoc);
      r := SortCandidates(gathered);
      r := SliceTo(r, limit);
      assert r == Ranked(gathered, limit);
    }

    /** `commit_selection`: records the choice in the user's history and drops
        every cache entry whose key contains the candidate's zhuyin. */
    method CommitSelection(candidate: Candidate, now: int)
      requires Valid()
      modifies this, userDb
      ensures Valid()
      ensures userDb.history == Upsert(HistoryKey, old(userDb.history),
                HistoryRow(candidate.zhuyin, candidate.phrase, 1, now), Reselected(now))
      ensures userDb.custom == old(userDb.custom)
      ensures cache == Invalidate(old(cache), candidate.zhuyin)
    {
      userDb.RecordSelection(candidate.zhuyin, candidate.phrase, now);
      cache := Invalidate(cache, candidate.zhuyin);
    }

    /** `get_single_char_candidates`: up to 30 single characters by
        frequency, then each single-character preference (up to 5) is moved
        to the front. */
    method GetSingleCharCandidates(zhuyin: string) returns (r: seq<Candidate>)
      requires Valid()
      ensures r == PromoteAll(zhuyin, SingleCharCandidates(zhuyin, phraseDb.GetSingleChar(zhuyin, 30)),
                              userDb.GetUserPreference(zhuyin, 5))
    {
      var results := phraseDb.GetSingleChar(zhuyin, 30);
      var candidates := SingleCharCandidates(zhuyin, results);
      var prefs := userDb.GetUserPreference(zhuyin, 5);
      r := PromotePreferences(zhuyin, candidates, prefs);
    }

    /** `get_phrase_candidates`: the syllables joined with spaces, queried
        with no context and the default limit. */
    method GetPhraseCandidates(syllables: seq<string>) returns (r: seq<Candidate>)
      requires Valid()
      modifies this
      ensures Valid()
      ensures syllables == [] ==> r == [] && cache == old(cache)
      ensures syllables != [] ==> r == Answer(old(cache), Join(" ", syllables), "", Fresh(Join(" ", syllables), "", 50))
      ensures syllables != [] ==> cache == NextCache(old(cache), Join(" ", syllables), "", r)
    {
      if syllables == [] {
        return [];
      }
      r := GetCandidates(Join(" ", syllables));
    }

    method ClearCache()
      requires Valid()
      modifies this
      ensures Valid() && cache == []
    {
      cache := [];
    }

    /** `add_user_phrase`: a custom phrase for the user's store, and an empty
        cache. */
    method AddUserPhrase(zhuyin: string, phrase: string, now: int)
      requires Valid()
      modifies this, userDb, userDb.phrases
      ensures Valid() && cache == []
      ensures userDb.custom == InsertOrIgnore(CustomKey, old(userDb.custom), CustomRow(zhuyin, phrase, now))
      ensures userDb.phrases.rows == InsertOrIgnore(PhraseKey, old(userDb.phrases.rows), PhraseRow(zhuyin, phrase, 1000, |phrase|))
      ensures userDb.history == old(userDb.history)
    {
      userDb.AddCustomPhrase(zhuyin, phrase, now);
      cache := [];
    }
  }

  /** The preference loop of `get_single_char_candidates`: for each
      single-character preference, the first candidate with that phrase is
      popped and the learned candidate is inserted at the front. */
  method PromotePreferences(zhuyin: string, candidates: seq<Candidate>, prefs: seq<HistoryRow>) returns (r: seq<Candidate>)
    ensures r == PromoteAll(zhuyin, candidates, prefs)
  {
    r := candidates;
    for j := 0 to |prefs|
      invariant PromoteAll(zhuyin, r, prefs[j..]) == PromoteAll(zhuyin, candidates, prefs)
    {
      assert prefs[j..][1..] == prefs[j + 1..];
      var h := prefs[j];
      assert PromoteAll(zhuyin, r, prefs[j..]) == PromoteAll(zhuyin, PromoteOne(zhuyin, r, h), prefs[j + 1..]);
      ghost var before := r;
      if |h.phrase| == 1 {
        r := PopFirst(r, h.phrase);
        r := [PreferenceCandidate(zhuyin, h)] + r;
      }
      assert r == PromoteOne(zhuyin, before, h);
    }
  }

  /** The inner loop of the preference loop: the first candidate with
      `phrase` is found and popped. */
  method PopFirst(cs: seq<Candidate>, phrase: string) returns (r: seq<Candidate>)
    ensures r == RemoveFirst(cs, phrase)
  {
    var i := 0;
    while i < |cs| && cs[i].phrase != phrase
      invariant 0 <= i <= |cs|
      invariant forall k :: 0 <= k < i ==> cs[k].phrase != phrase
    {
      i := i + 1;
    }
    RemoveFirstAt(cs, phrase, i);
    r := cs;
    if i < |cs| {
      r := cs[..i] + cs[i + 1..];
    }
  }

  /** Steps 1 to 4 of `get_candidates` over the four query results. */
  method GatherLoop(zhuyin: string, context: string, limit: int, prefs: seq<HistoryRow>,
                    exact: seq<PhraseRow>, prefix: seq<PhraseRow>, assoc: seq<PhraseRow>)
    returns (candidates: seq<Candidate>)
    ensures candidates == Gather(zhuyin, context, limit, prefs, exact, prefix, assoc)
  {
    var seen: set<string> := {};
    candidates, seen := AddUnseenLoop([], seen, PreferenceProposals(zhuyin, prefs));
    candidates, seen := AddUnseenLoop(candidates, seen, ExactProposals(exact));
    if |candidates| < limit {
      candidates, seen := AddUnseenLoop(candidates, seen, PrefixProposals(prefix));
    }
    if context != "" && |candidates| < limit {
      candidates, seen := AddUnseenLoop(candidates, seen, AssociativeProposals(assoc, LastChar(context)));
    }
  }

  /** The loop each source of `get_candidates` runs over its query results. */
  method AddUnseenLoop(candidates: seq<Candidate>, seen: set<string>, ps: seq<Proposal>)
    returns (candidates': seq<Candidate>, seen': set<string>)
    ensures (candidates', seen') == AddUnseen(candidates, seen, ps)
  {
    candidates', seen' := candidates, seen;
    for i := 0 to |ps|
      invariant AddUnseen(candidates', seen', ps[i..]) == AddUnseen(candidates, seen, ps)
    {
      assert ps[i..][1..] == ps[i + 1..];
      if ps[i].seenAs !in seen' {
        candidates' := candidates' + [ps[i].candidate];
        seen' := seen' + {ps[i].seenAs};
      }
    }
  }

  /** The engine with a window of recent output, whose last three items are
      the context for its queries. */
  class SmartCandidateEngine {
    const engine: CandidateEngine
    var recentOutput: seq<string>

    ghost predicate Valid()
      reads this, engine, engine.phraseDb, engine.userDb, engine.userDb.phrases
    {
      engine.Valid() && |recentOutput| <= MaxRecent
    }

    constructor (engine: CandidateEngine)
      requires engine.Valid()
      ensures Valid() && this.engine == engine && recentOutput == []
    {
      this.engine := engine;
      recentOutput := [];
    }

    /** `get_candidates_smart`. */
    method GetCandidatesSmart(zhuyin: string) returns (r: seq<Candidate>)
      requires Valid()
      modifies engine
      ensures Valid()
      ensures r == Answer(old(engine.cache), zhuyin, SmartContext(recentOutput),
                          engine.Fresh(zhuyin, SmartContext(recentOutput), 50))
      ensures engine.cache == NextCache(old(engine.cache), zhuyin, SmartContext(recentOutput), r)
    {
      r := engine.GetCandidates(zhuyin, SmartContext(recentOutput));
    }

    /** `commit_and_record`: commits the candidate and pushes its phrase onto
        the window of recent output. */
    method CommitAndRecord(candidate: Candidate, now: int) returns (output: string)
      requires Valid()
      modifies this, engine, engine.userDb
      ensures Valid()
      ensures output == candidate.phrase
      ensures recentOutput == PushRecent(old(recentOutput), candidate.phrase)
      ensures engine.cache == Invalidate(old(engine.cache), candidate.zhuyin)
      ensures engine.userDb.history == Upsert(HistoryKey, old(engine.userDb.history),
                HistoryRow(candidate.zhuyin, candidate.phrase, 1, now), Reselected(now))
      ensures engine.userDb.custom == old(engine.userDb.custom)
    {
      engine.CommitSelection(candidate, now);
      recentOutput := recentOutput + [candidate.phrase];
      if |recentOutput| > MaxRecent {
        recentOutput := recentOutput[1..];
      }
      output := candidate.phrase;
    }

    /** `get_continuation_candidates`: nothing without history or when the
        last output is empty; otherwise the continuations of the phrases
        associated with its last character. */
    function GetContinuationCandidates(): (r: seq<Candidate>)
      reads this, engine, engine.phraseDb
      ensures LastOutputChar(recentOutput) == "" ==> r == []
      ensures LastOutputChar(recentOutput) != "" ==>
        r == Continuations(LastOutputChar(recentOutput), engine.phraseDb.GetAssociatedPhrases(LastOutputChar(recentOutput), 10))
      ensures forall c :: c in r ==> c.phrase != "" && c.source == System && !c.isExact
    {
      var lastChar := LastOutputChar(recentOutput);
      if lastChar == "" then []
      else
        var associated := engine.phraseDb.GetAssociatedPhrases(lastChar, 10);
        ContinuationsShape(lastChar, associated);
        Continuations(lastChar, associated)
    }

    method ClearContext()
      requires Valid()
      modifies this
      ensures Valid() && recentOutput == []
    {
      recentOutput := [];
    }
  }
}
