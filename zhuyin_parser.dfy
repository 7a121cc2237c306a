/** The Zhuyin (Bopomofo) syllable parser: a left-to-right state machine that
    keeps one accumulator syllable and flushes it on a space, after a tone, or
    when a symbol arrives for a slot that is already taken; plus the
    composition checks and small string helpers around it. */
module ZhuyinParser {
  import opened Common

  /** The symbol classes. They come from a configuration module; the
      sequences are the order in which the parser enumerates each class.
      `tones` are the tone marks without the first-tone blank, and
      `toneNumbers` maps each tone mark to its tone number. */
  datatype SymbolTable = SymbolTable(
    initials: seq<char>,
    medials: seq<char>,
    finals: seq<char>,
    tones: seq<char>,
    toneNumbers: map<char, int>)

  datatype SymbolClass = Space | Tone | Initial | Medial | Final | Unknown

  /** The class the parser gives a character, checked in the parser's order:
      space, tone, initial, medial, final. */
  function Classify(t: SymbolTable, c: char): SymbolClass {
    if c == ' ' then Space
    else if c in t.tones then Tone
    else if c in t.initials then Initial
    else if c in t.medials then Medial
    else if c in t.finals then Final
    else Unknown
  }

  predicate IsSymbol(t: SymbolTable, c: char) {
    !Classify(t, c).Space? && !Classify(t, c).Unknown?
  }

  /** The characters of `s` that the parser places into a slot, in order. */
  function RecognisedSymbols(t: SymbolTable, s: string): string {
    if s == [] then ""
    else (if IsSymbol(t, s[0]) then [s[0]] else "") + RecognisedSymbols(t, s[1..])
  }

  datatype Syllable = Syllable(initial: string, medial: string, final: string, tone: string, raw: string)

  const EmptySyllable := Syllable("", "", "", "", "")

  /** The ㄐㄑㄒ initials, which only combine with the medials ㄧ and ㄩ. */
  const JqxInitials: seq<string> := ["ㄐ", "ㄑ", "ㄒ"]
  const JqxMedials: seq<string> := ["ㄧ", "ㄩ"]
  /** The initials that form a syllable on their own and never take ㄩ. */
  const ZhiGroup: seq<string> := ["ㄓ", "ㄔ", "ㄕ", "ㄖ", "ㄗ", "ㄘ", "ㄙ"]

  /** The syllable's text: its slots in the order initial, medial, final,
      tone, whatever order they were typed in. */
  function ToString(s: Syllable): string {
    s.initial + s.medial + s.final + s.tone
  }

  function IsEmpty(s: Syllable): (r: bool)
    ensures r <==> ToString(s) == ""
  {
    s.initial == "" && s.medial == "" && s.final == "" && s.tone == ""
  }

  /** A syllable is complete when it has a tone, is a lone initial of the
      zhi group, or has a medial or a final. */
  function IsComplete(s: Syllable): (r: bool)
    ensures s.tone != "" ==> r
    ensures !r ==> s.medial == "" && s.final == "" && s.initial !in ZhiGroup
    ensures r ==> s.tone != "" || s.medial != "" || s.final != "" || s.initial in ZhiGroup
  {
    s.tone != "" || IsValidStandalone(s)
  }

  function IsValidStandalone(s: Syllable): bool {
    if s.initial in ZhiGroup && s.medial == "" && s.final == "" then true
    else s.final != "" || s.medial != ""
  }

  /** The lookup key: the syllable's text without its tone. */
  function ToSearchKey(s: Syllable): (r: string)
    ensures r + s.tone == ToString(s)
  {
    s.initial + s.medial + s.final
  }

  // ---------------------------------------------------------------------
  // The parser's state machine, as a specification

  datatype ParseState = ParseState(syllables: seq<Syllable>, current: Syllable)

  const Start := ParseState([], EmptySyllable)

  /** An emitted syllable records its text in `raw`. */
  function Finished(s: Syllable): Syllable {
    s.(raw := ToString(s))
  }

  /** Emits the accumulator unless it is empty, and starts a new one. */
  function Flush(st: ParseState): ParseState {
    if IsEmpty(st.current) then st
    else ParseState(st.syllables + [Finished(st.current)], EmptySyllable)
  }

  /** One iteration of the parser's loop. */
  function Step(t: SymbolTable, st: ParseState, c: char): ParseState {
    var cur := st.current;
    match Classify(t, c)
    case Space => Flush(st)
    case Tone => ParseState(st.syllables + [Finished(cur.(tone := [c]))], EmptySyllable)
    case Initial =>
      if cur.initial != "" then ParseState(st.syllables + [Finished(cur)], EmptySyllable.(initial := [c]))
      else ParseState(st.syllables, cur.(initial := [c]))
    case Medial =>
      if cur.medial != "" || cur.final != "" then ParseState(st.syllables + [Finished(cur)], EmptySyllable.(medial := [c]))
      else ParseState(st.syllables, cur.(medial := [c]))
    case Final =>
      if cur.final != "" then ParseState(st.syllables + [Finished(cur)], EmptySyllable.(final := [c]))
      else ParseState(st.syllables, cur.(final := [c]))
    case Unknown => st
  }

  function RunFrom(t: SymbolTable, st: ParseState, s: string): ParseState
    decreases |s|
  {
    if s == [] then st else RunFrom(t, Step(t, st, s[0]), s[1..])
  }

  /** What `parse` returns for `input`. */
  function ParseSpec(t: SymbolTable, input: string): seq<Syllable> {
    Flush(RunFrom(t, Start, input)).syllables
  }

  /** The parser's loop, with the accumulator's fields updated in place. */
  method Parse(t: SymbolTable, input: string) returns (syllables: seq<Syllable>)
    ensures syllables == ParseSpec(t, input)
  {
    syllables := [];
    var current := EmptySyllable;
    var i := 0;
    while i < |input|
      invariant 0 <= i <= |input|
      invariant Flush(RunFrom(t, ParseState(syllables, current), input[i..])) == Flush(RunFrom(t, Start, input))
    {
      var c := input[i];
      assert input[i..] == [c] + input[i + 1..];
      ghost var before := ParseState(syllables, current);
      if c == ' ' {
        if !IsEmpty(current) {
          current := current.(raw := ToString(current));
          syllables := syllables + [current];
          current := EmptySyllable;
        }
      } else if c in t.tones {
        current := current.(tone := [c]);
        current := current.(raw := ToString(current));
        syllables := syllables + [current];
        current := EmptySyllable;
      } else if c in t.initials {
        if current.initial != "" {
          current := current.(raw := ToString(current));
          syllables := syllables + [current];
          current := EmptySyllable;
        }
        current := current.(initial := [c]);
      } else if c in t.medials {
        if current.medial != "" || current.final != "" {
          current := current.(raw := ToString(current));
          syllables := syllables + [current];
          current := EmptySyllable;
        }
        current := current.(medial := [c]);
      } else if c in t.finals {
        if current.final != "" {
          current := current.(raw := ToString(current));
          syllables := syllables + [current];
          current := EmptySyllable;
        }
        current := current.(final := [c]);
      }
      assert ParseState(syllables, current) == Step(t, before, c);
      i := i + 1;
    }
    if !IsEmpty(current) {
      current := current.(raw := ToString(current));
      syllables := syllables + [current];
    }
  }

  /** The first syllable of `input`, or None when it has none. */
  function ParseSingle(t: SymbolTable, input: string): (r: Option<Syllable>)
    ensures r.None? <==> RecognisedSymbols(t, input) == ""
    ensures r.Some? ==> ParseSpec(t, input) != [] && r.value == ParseSpec(t, input)[0] && Canonical(t, r.value)
  {
    var syllables := ParseSpec(t, input);
    SymbolAccounting(t, input);
    SyllableCountBound(t, input);
    ParseCanonical(t, input);
    if syllables == [] then None else Some(syllables[0])
  }

  /** The syllables of `input` as strings: one non-empty text per parsed
      syllable, at most one per recognised symbol, and none exactly when
      no symbol is recognised. */
  function SplitSyllables(t: SymbolTable, input: string): (r: seq<string>)
    ensures |r| == |ParseSpec(t, input)| <= |RecognisedSymbols(t, input)|
    ensures r == [] <==> RecognisedSymbols(t, input) == ""
    ensures forall i :: 0 <= i < |r| ==> r[i] != "" && r[i] == ParseSpec(t, input)[i].raw
  {
    SyllableCountBound(t, input);
    ParseCanonical(t, input);
    var syllables := ParseSpec(t, input);
    assert forall i :: 0 <= i < |syllables| ==> Canonical(t, syllables[i]) by {
      assert forall i :: 0 <= i < |syllables| ==> syllables[i] in syllables;
    }
    Texts(syllables)
  }

  function Texts(syllables: seq<Syllable>): (r: seq<string>)
    ensures |r| == |syllables|
    ensures forall i :: 0 <= i < |r| ==> r[i] == ToString(syllables[i])
  {
    if syllables == [] then [] else [ToString(syllables[0])] + Texts(syllables[1..])
  }

  /** The syllables of `input` written out and separated by single spaces:
      the result parses to the same syllables as the input. */
  function Normalize(t: SymbolTable, input: string): (r: string)
    ensures ParseSpec(t, r) == ParseSpec(t, input)
    ensures SplitSyllables(t, r) == SplitSyllables(t, input)
  {
    var syllables := ParseSpec(t, input);
    ParseCanonical(t, input);
    assert syllables != [] ==> Flush(RunFrom(t, Start, Join(" ", Texts(syllables)))) == ParseState(Start.syllables + syllables, EmptySyllable) by {
      if syllables != [] {
        ReparseJoin(t, Start, syllables);
      }
    }
    Join(" ", SplitSyllables(t, input))
  }

  // ---------------------------------------------------------------------
  // Composition rules, completions and tone helpers

  /** `(True, "")` for a legal syllable, otherwise `False` with a reason. */
  function Validate(s: Syllable): (r: (bool, string))
    ensures !r.0 <==>
      || (s.initial in JqxInitials && s.medial != "" && s.medial !in JqxMedials)
      || (s.initial in JqxInitials && s.medial == "" && s.final != "")
      || (s.initial in ZhiGroup && s.medial == "ㄩ")
    ensures r.0 <==> r.1 == ""
  {
    if s.initial in JqxInitials && s.medial != "" && s.medial !in JqxMedials then
      (false, s.initial + " 不能與 " + s.medial + " 組合")
    else if s.initial in JqxInitials && s.medial == "" && s.final != "" then
      (false, s.initial + " 需要介音 ㄧ 或 ㄩ")
    else if s.initial in ZhiGroup && s.medial == "ㄩ" then
      (false, s.initial + " 不能與 ㄩ 組合")
    else
      (true, "")
  }

  /** The symbols that may follow `partial`, judged on its first syllable. */
  function GetPossibleCompletions(t: SymbolTable, partial: string): (r: seq<char>)
    ensures RecognisedSymbols(t, partial) == "" ==> r == t.initials + t.medials
    ensures ParseSingle(t, partial).Some? ==>
      var s := ParseSingle(t, partial).value;
      && (s.initial in JqxInitials && s.medial == "" && s.final == "" ==> r == ['ㄧ', 'ㄩ'])
      && (s.initial !in JqxInitials && s.initial in ZhiGroup && s.medial == "" && s.final == "" ==>
            r == ['ㄧ', 'ㄨ'] + t.finals + t.tones)
      && (s.initial != "" && s.initial !in JqxInitials && s.initial !in ZhiGroup && s.medial == "" && s.final == "" ==>
            r == t.medials + t.finals + t.tones)
      && (s.medial != "" && s.final == "" ==> r == t.finals + t.tones)
      && (s.final != "" ==> r == t.tones)
      && (s.initial == "" && s.medial == "" && s.final == "" ==> r == [])
  {
    match ParseSingle(t, partial)
    case None => t.initials + t.medials
    case Some(s) =>
      if s.initial != "" && s.medial == "" && s.final == "" then
        if s.initial in JqxInitials then ['ㄧ', 'ㄩ']
        else if s.initial in ZhiGroup then ['ㄧ', 'ㄨ'] + t.finals + t.tones
        else t.medials + t.finals + t.tones
      else if s.medial != "" && s.final == "" then t.finals + t.tones
      else if s.final != "" then t.tones
      else []
  }

  /** The tone number of a syllable string; 1 when it is empty or its last
      character is not a tone mark. */
  function GetTone(t: SymbolTable, s: string): (r: int)
    ensures s == "" || s[|s| - 1] !in t.toneNumbers ==> r == 1
    ensures s != "" && s[|s| - 1] in t.toneNumbers ==> r == t.toneNumbers[s[|s| - 1]]
  {
    if s == "" then 1
    else if s[|s| - 1] in t.toneNumbers then t.toneNumbers[s[|s| - 1]]
    else 1
  }

  /** Drops the last character when it is a tone mark. */
  function RemoveTone(t: SymbolTable, s: string): (r: string)
    ensures s != "" && s[|s| - 1] in t.tones ==> r + [s[|s| - 1]] == s
    ensures s == "" || s[|s| - 1] !in t.tones ==> r == s
  {
    if s != "" && s[|s| - 1] in t.tones then s[..|s| - 1] else s
  }

  // ---------------------------------------------------------------------
  // Properties of the parser

  /** Each slot of `s` holds at most one symbol, of that slot's class. */
  predicate SlotsOk(t: SymbolTable, s: Syllable) {
    && |s.initial| <= 1 && (s.initial != "" ==> Classify(t, s.initial[0]) == Initial)
    && |s.medial| <= 1 && (s.medial != "" ==> Classify(t, s.medial[0]) == Medial)
    && |s.final| <= 1 && (s.final != "" ==> Classify(t, s.final[0]) == Final)
    && |s.tone| <= 1 && (s.tone != "" ==> Classify(t, s.tone[0]) == Tone)
  }

  /** What every emitted syllable looks like. */
  predicate Canonical(t: SymbolTable, s: Syllable) {
    !IsEmpty(s) && s.raw == ToString(s) && SlotsOk(t, s)
  }

  predicate StateOk(t: SymbolTable, st: ParseState) {
    && (forall s :: s in st.syllables ==> Canonical(t, s))
    && st.current.tone == "" && st.current.raw == "" && SlotsOk(t, st.current)
  }

  lemma SnocCanonical(t: SymbolTable, syllables: seq<Syllable>, s: Syllable)
    requires forall x :: x in syllables ==> Canonical(t, x)
    requires Canonical(t, s)
    ensures forall x :: x in syllables + [s] ==> Canonical(t, x)
  {
  }

  lemma StepOk(t: SymbolTable, st: ParseState, c: char)
    requires StateOk(t, st)
    ensures StateOk(t, Step(t, st, c))
  {
    var cur := st.current;
    match Classify(t, c)
    case Space =>
      if !IsEmpty(cur) {
        SnocCanonical(t, st.syllables, Finished(cur));
      }
    case Tone =>
      SnocCanonical(t, st.syllables, Finished(cur.(tone := [c])));
    case Initial =>
      if cur.initial != "" {
        SnocCanonical(t, st.syllables, Finished(cur));
      }
    case Medial =>
      if cur.medial != "" || cur.final != "" {
        SnocCanonical(t, st.syllables, Finished(cur));
      }
    case Final =>
      if cur.final != "" {
        SnocCanonical(t, st.syllables, Finished(cur));
      }
    case Unknown =>
  }

  lemma {:induction false} RunOk(t: SymbolTable, st: ParseState, s: string)
    requires StateOk(t, st)
    ensures StateOk(t, RunFrom(t, st, s))
    decreases |s|
  {
    if s != [] {
      StepOk(t, st, s[0]);
      RunOk(t, Step(t, st, s[0]), s[1..]);
    }
  }

  /** Every syllable `parse` emits is non-empty, records its own text in
      `raw`, and holds at most one symbol per slot, each of that slot's
      class. */
  lemma ParseCanonical(t: SymbolTable, input: string)
    ensures forall s :: s in ParseSpec(t, input) ==> Canonical(t, s)
  {
    RunOk(t, Start, input);
  }

  /** The text of a list of syllables, one after the other. */
  function Flatten(syllables: seq<Syllable>): string {
    if syllables == [] then ""
    else Flatten(syllables[..|syllables| - 1]) + ToString(syllables[|syllables| - 1])
  }

  lemma FlattenSnoc(syllables: seq<Syllable>, s: Syllable)
    ensures Flatten(syllables + [s]) == Flatten(syllables) + ToString(s)
  {
    assert (syllables + [s])[..|syllables|] == syllables;
  }

  /** Every symbol placed so far, emitted or still in the accumulator. */
  function Placed(st: ParseState): multiset<char> {
    multiset(Flatten(st.syllables)) + multiset(ToString(st.current))
  }

  lemma EmitPlaced(st: ParseState, next: Syllable)
    ensures Placed(ParseState(st.syllables + [Finished(st.current)], next))
            == Placed(st) + multiset(ToString(next))
  {
    FlattenSnoc(st.syllables, Finished(st.current));
  }

  /** Setting an empty slot of the accumulator adds that symbol to what has
      been placed. */
  lemma FillPlaced(st: ParseState, cur': Syllable, c: char)
    requires multiset(ToString(cur')) == multiset(ToString(st.current)) + multiset{c}
    ensures Placed(ParseState(st.syllables, cur')) == Placed(st) + multiset{c}
  {
  }

  lemma StepPlacedTone(t: SymbolTable, st: ParseState, c: char)
    requires st.current.tone == "" && Classify(t, c) == Tone
    ensures Placed(Step(t, st, c)) == Placed(st) + multiset{c}
  {
    var withTone := ParseState(st.syllables, st.current.(tone := [c]));
    assert Step(t, st, c) == ParseState(withTone.syllables + [Finished(withTone.current)], EmptySyllable);
    EmitPlaced(withTone, EmptySyllable);
    assert ToString(withTone.current) == ToString(st.current) + [c];
    FillPlaced(st, withTone.current, c);
  }

  lemma StepPlacedInitial(t: SymbolTable, st: ParseState, c: char)
    requires Classify(t, c) == Initial
    ensures Placed(Step(t, st, c)) == Placed(st) + multiset{c}
  {
    var cur := st.current;
    if cur.initial != "" {
      assert Step(t, st, c) == ParseState(st.syllables + [Finished(cur)], EmptySyllable.(initial := [c]));
      EmitPlaced(st, EmptySyllable.(initial := [c]));
    } else {
      var cur' := cur.(initial := [c]);
      assert Step(t, st, c) == ParseState(st.syllables, cur');
      assert ToString(cur') == [c] + ToString(cur);
      FillPlaced(st, cur', c);
    }
  }

  lemma StepPlacedMedial(t: SymbolTable, st: ParseState, c: char)
    requires Classify(t, c) == Medial
    ensures Placed(Step(t, st, c)) == Placed(st) + multiset{c}
  {
    var cur := st.current;
    if cur.medial != "" || cur.final != "" {
      assert Step(t, st, c) == ParseState(st.syllables + [Finished(cur)], EmptySyllable.(medial := [c]));
      EmitPlaced(st, EmptySyllable.(medial := [c]));
    } else {
      assert Step(t, st, c) == ParseState(st.syllables, cur.(medial := [c]));
      FillMedial(st, c);
    }
  }

  lemma FillMedial(st: ParseState, c: char)
    requires st.current.medial == "" && st.current.final == ""
    ensures Placed(ParseState(st.syllables, st.current.(medial := [c]))) == Placed(st) + multiset{c}
  {
    var cur := st.current;
    var cur' := cur.(medial := [c]);
    assert ToString(cur') == cur.initial + [c] + cur.tone;
    assert ToString(cur) == cur.initial + cur.tone;
    assert multiset(ToString(cur')) == multiset(cur.initial) + multiset{c} + multiset(cur.tone);
    FillPlaced(st, cur', c);
  }

  lemma StepPlacedFinal(t: SymbolTable, st: ParseState, c: char)
    requires Classify(t, c) == Final
    ensures Placed(Step(t, st, c)) == Placed(st) + multiset{c}
  {
    var cur := st.current;
    if cur.final != "" {
      assert Step(t, st, c) == ParseState(st.syllables + [Finished(cur)], EmptySyllable.(final := [c]));
      EmitPlaced(st, EmptySyllable.(final := [c]));
    } else {
      var cur' := cur.(final := [c]);
      assert Step(t, st, c) == ParseState(st.syllables, cur');
      assert ToString(cur') == (cur.initial + cur.medial) + [c] + cur.tone;
      assert ToString(cur) == (cur.initial + cur.medial) + cur.tone;
      assert multiset(ToString(cur')) == multiset(cur.initial + cur.medial) + multiset{c} + multiset(cur.tone);
      FillPlaced(st, cur', c);
    }
  }

  lemma StepPlaced(t: SymbolTable, st: ParseState, c: char)
    requires st.current.tone == ""
    ensures Placed(Step(t, st, c)) == Placed(st) + (if IsSymbol(t, c) then multiset{c} else multiset{})
  {
    match Classify(t, c)
    case Space =>
      if !IsEmpty(st.current) {
        assert Step(t, st, c) == ParseState(st.syllables + [Finished(st.current)], EmptySyllable);
        EmitPlaced(st, EmptySyllable);
      }
    case Tone => StepPlacedTone(t, st, c);
    case Initial => StepPlacedInitial(t, st, c);
    case Medial => StepPlacedMedial(t, st, c);
    case Final => StepPlacedFinal(t, st, c);
    case Unknown =>
  }

  lemma {:induction false} RunPlaced(t: SymbolTable, st: ParseState, s: string)
    requires StateOk(t, st)
    ensures Placed(RunFrom(t, st, s)) == Placed(st) + multiset(RecognisedSymbols(t, s))
    decreases |s|
  {
    if s != [] {
      StepPlaced(t, st, s[0]);
      StepOk(t, st, s[0]);
      RunPlaced(t, Step(t, st, s[0]), s[1..]);
    }
  }

  /** Every recognised symbol of the input lands in exactly one slot of one
      emitted syllable, and nothing else does: spaces and unknown characters
      contribute nothing. */
  lemma SymbolAccounting(t: SymbolTable, input: string)
    ensures multiset(Flatten(ParseSpec(t, input))) == multiset(RecognisedSymbols(t, input))
  {
    RunPlaced(t, Start, input);
    RunOk(t, Start, input);
    var st := RunFrom(t, Start, input);
    assert Placed(Start) == multiset{};
    assert Placed(st) == multiset(RecognisedSymbols(t, input));
    if !IsEmpty(st.current) {
      FlattenSnoc(st.syllables, Finished(st.current));
      assert Flatten(Flush(st).syllables) == Flatten(st.syllables) + ToString(st.current);
    }
  }

  lemma {:induction false} FlattenLength(t: SymbolTable, syllables: seq<Syllable>)
    requires forall s :: s in syllables ==> Canonical(t, s)
    ensures |Flatten(syllables)| >= |syllables|
    decreases |syllables|
  {
    if syllables != [] {
      var init := syllables[..|syllables| - 1];
      assert forall s :: s in init ==> s in syllables;
      FlattenLength(t, init);
      assert syllables[|syllables| - 1] in syllables;
    }
  }

  /** `parse` emits at most one syllable per recognised symbol; input with no
      recognised symbol parses to nothing, and any other input to at least
      one syllable. */
  lemma SyllableCountBound(t: SymbolTable, input: string)
    ensures |ParseSpec(t, input)| <= |RecognisedSymbols(t, input)|
    ensures ParseSpec(t, input) == [] <==> RecognisedSymbols(t, input) == ""
  {
    SymbolAccounting(t, input);
    ParseCanonical(t, input);
    FlattenLength(t, ParseSpec(t, input));
    assert |multiset(Flatten(ParseSpec(t, input)))| == |RecognisedSymbols(t, input)|;
  }

  /** For an emitted syllable, removing the tone from its text gives its
      search key, and the tone number is read from its tone mark. */
  lemma ToneOfCanonical(t: SymbolTable, s: Syllable)
    requires Canonical(t, s)
    ensures RemoveTone(t, ToString(s)) == ToSearchKey(s)
    ensures ToString(s) == ToSearchKey(s) + s.tone
    ensures s.tone != "" && s.tone[0] in t.toneNumbers ==> GetTone(t, ToString(s)) == t.toneNumbers[s.tone[0]]
  {
    var text := ToString(s);
    if s.tone == "" {
      assert text == s.initial + s.medial + s.final;
      if s.final != "" {
        assert text[|text| - 1] == s.final[0];
      } else if s.medial != "" {
        assert text[|text| - 1] == s.medial[0];
      } else {
        assert text[|text| - 1] == s.initial[0];
      }
    } else {
      assert text[|text| - 1] == s.tone[0];
      assert text[..|text| - 1] == ToSearchKey(s);
    }
  }

  // ---------------------------------------------------------------------
  // Re-parsing the parser's own output

  lemma {:induction false} RunFromAppend(t: SymbolTable, st: ParseState, a: string, b: string)
    ensures RunFrom(t, st, a + b) == RunFrom(t, RunFrom(t, st, a), b)
    decreases |a|
  {
    if a != [] {
      assert (a + b)[0] == a[0] && (a + b)[1..] == a[1..] + b;
      RunFromAppend(t, Step(t, st, a[0]), a[1..], b);
    } else {
      assert a + b == b;
    }
  }

  lemma RunFromShort(t: SymbolTable, st: ParseState, s: string)
    requires |s| <= 1
    ensures RunFrom(t, st, s) == if s == "" then st else Step(t, st, s[0])
  {
    if s != "" {
      assert s[1..] == [];
    }
  }

  /** Parsing the text of one emitted syllable, from an empty accumulator,
      gives that syllable back. */
  lemma ReparseOne(t: SymbolTable, st: ParseState, s: Syllable)
    requires st.current == EmptySyllable && Canonical(t, s)
    ensures Flush(RunFrom(t, st, ToString(s))) == ParseState(st.syllables + [s], EmptySyllable)
  {
    var st1 := ParseState(st.syllables, EmptySyllable.(initial := s.initial));
    var st2 := ParseState(st.syllables, EmptySyllable.(initial := s.initial, medial := s.medial));
    var st3 := ParseState(st.syllables, EmptySyllable.(initial := s.initial, medial := s.medial, final := s.final));
    RunFromShort(t, st, s.initial);
    RunFromShort(t, st1, s.medial);
    RunFromShort(t, st2, s.final);
    RunFromShort(t, st3, s.tone);
    assert s.initial != "" ==> s.initial == [s.initial[0]];
    assert s.medial != "" ==> s.medial == [s.medial[0]];
    assert s.final != "" ==> s.final == [s.final[0]];
    assert s.tone != "" ==> s.tone == [s.tone[0]];
    assert RunFrom(t, st, s.initial) == st1;
    assert RunFrom(t, st1, s.medial) == st2;
    assert RunFrom(t, st2, s.final) == st3;
    RunFromAppend(t, st, s.initial, s.medial);
    RunFromAppend(t, st, s.initial + s.medial, s.final);
    RunFromAppend(t, st, s.initial + s.medial + s.final, s.tone);
  }

  lemma JoinCons(sep: string, a: string, rest: seq<string>)
    requires rest != []
    ensures Join(sep, [a] + rest) == a + sep + Join(sep, rest)
  {
    assert ([a] + rest)[1..] == rest;
  }

  /** Reading a syllable's text and then a space, from an empty accumulator,
      emits exactly that syllable. */
  lemma ReparseWithSpace(t: SymbolTable, st: ParseState, s: Syllable)
    requires st.current == EmptySyllable && Canonical(t, s)
    ensures RunFrom(t, st, ToString(s) + " ") == ParseState(st.syllables + [s], EmptySyllable)
  {
    RunFromAppend(t, st, ToString(s), " ");
    RunFromShort(t, RunFrom(t, st, ToString(s)), " ");
    ReparseOne(t, st, s);
  }

  lemma TextsCons(s: Syllable, rest: seq<Syllable>)
    ensures Texts([s] + rest) == [ToString(s)] + Texts(rest)
  {
    assert ([s] + rest)[1..] == rest;
  }

  /** One step of `ReparseJoin`: the first syllable's text and its separating
      space emit that syllable, and the rest is parsed from there. */
  lemma ReparseJoinCons(t: SymbolTable, st: ParseState, syllables: seq<Syllable>)
    requires st.current == EmptySyllable && |syllables| > 1 && Canonical(t, syllables[0])
    ensures RunFrom(t, st, Join(" ", Texts(syllables)))
            == RunFrom(t, ParseState(st.syllables + [syllables[0]], EmptySyllable), Join(" ", Texts(syllables[1..])))
  {
    var s, rest := syllables[0], syllables[1..];
    assert syllables == [s] + rest;
    var restText := Join(" ", Texts(rest));
    var head := ToString(s) + " ";
    TextsCons(s, rest);
    JoinCons(" ", ToString(s), Texts(rest));
    assert Join(" ", Texts([s] + rest)) == head + restText;
    RunFromAppend(t, st, head, restText);
    ReparseWithSpace(t, st, s);
  }

  /** Parsing the space-joined texts of canonical syllables, from an empty
      accumulator, emits exactly those syllables. */
  lemma {:induction false} ReparseJoin(t: SymbolTable, st: ParseState, syllables: seq<Syllable>)
    requires st.current == EmptySyllable && syllables != []
    requires forall s :: s in syllables ==> Canonical(t, s)
    ensures Flush(RunFrom(t, st, Join(" ", Texts(syllables)))) == ParseState(st.syllables + syllables, EmptySyllable)
    decreases |syllables|
  {
    var s := syllables[0];
    assert s in syllables;
    var rest := syllables[1..];
    assert syllables == [s] + rest;
    if rest == [] {
      TextsCons(s, rest);
      ReparseOne(t, st, s);
    } else {
      assert forall x :: x in rest ==> x in syllables;
      ReparseJoinCons(t, st, syllables);
      ReparseJoin(t, ParseState(st.syllables + [s], EmptySyllable), rest);
      SeqAssoc(st.syllables, [s], rest);
    }
  }

  /** Parsing a normalized string gives the same syllables as parsing the
      original, so normalizing twice changes nothing. */
  lemma NormalizeIdempotent(t: SymbolTable, input: string)
    ensures ParseSpec(t, Normalize(t, input)) == ParseSpec(t, input)
    ensures Normalize(t, Normalize(t, input)) == Normalize(t, input)
  {
  }

  /** An emitted syllable's text parses back to that syllable alone. */
  lemma ToStringRoundTrip(t: SymbolTable, s: Syllable)
    requires Canonical(t, s)
    ensures ParseSpec(t, ToString(s)) == [s]
  {
    ReparseOne(t, Start, s);
  }

  /** The parser places symbols by slot, not by position: a medial typed
      before an initial ends up after it in the emitted text, so the emitted
      text is a rearrangement of the recognised input, not always a copy. */
  lemma ParseReordersSlots()
    ensures var t := SymbolTable(['ㄅ'], ['ㄧ'], [], [], map[]);
      && ParseSpec(t, "ㄧㄅ") == [Syllable("ㄅ", "ㄧ", "", "", "ㄅㄧ")]
      && Flatten(ParseSpec(t, "ㄧㄅ")) != RecognisedSymbols(t, "ㄧㄅ")
  {
    var t := SymbolTable(['ㄅ'], ['ㄧ'], [], [], map[]);
    assert Classify(t, 'ㄧ') == Medial;
    assert Classify(t, 'ㄅ') == Initial;
    var st1 := Step(t, Start, 'ㄧ');
    assert st1 == ParseState([], EmptySyllable.(medial := "ㄧ"));
    var st2 := Step(t, st1, 'ㄅ');
    assert st2 == ParseState([], Syllable("ㄅ", "ㄧ", "", "", ""));
    assert "ㄧㄅ"[0] == 'ㄧ' && "ㄧㄅ"[1..] == "ㄅ";
    assert "ㄅ"[0] == 'ㄅ' && "ㄅ"[1..] == "";
    assert RunFrom(t, Start, "ㄧㄅ") == RunFrom(t, st1, "ㄅ");
    assert RunFrom(t, st1, "ㄅ") == RunFrom(t, st2, "");
    assert ToString(st2.current) == "ㄅㄧ";
    assert Flush(st2) == ParseState([Syllable("ㄅ", "ㄧ", "", "", "ㄅㄧ")], EmptySyllable);
    assert Flatten([Syllable("ㄅ", "ㄧ", "", "", "ㄅㄧ")]) == "ㄅㄧ";
    assert RecognisedSymbols(t, "ㄅ") == "ㄅ";
    assert RecognisedSymbols(t, "ㄧㄅ") == "ㄧㄅ";
  }
}
