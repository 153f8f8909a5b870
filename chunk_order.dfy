/**
 * The chunk-order grammar: the ordering and multiplicity rules of the
 * standard chunks (section 4.3 of PNG 1.2) enforced by a six-state machine
 * over chunk type codes and a per-code occurrence counter.
 */
module ChunkOrder {
  import opened Common
  import opened ChunkTypes

  // The ordering classes of the standard codes.
  const CRITICAL: set<Code> := {IHDR, PLTE, IDAT, IEND}
  const BEFORE_PALETTE: set<Code> := {cHRM, gAMA, iCCP, sBIT, sRGB}
  const AFTER_PALETTE_BEFORE_DATA: set<Code> := {bKGD, hIST, tRNS}
  const BEFORE_DATA: set<Code> := {pHYs, sPLT}
  const ALLOWED_ANYWHERE: set<Code> := {tIME, iTXt, tEXt, zTXt}
  const KNOWN: set<Code> :=
    CRITICAL + BEFORE_PALETTE + AFTER_PALETTE_BEFORE_DATA + BEFORE_DATA + ALLOWED_ANYWHERE

  /** Known codes that may occur more than once. */
  const MULTIPLE_ALLOWED: set<Code> := {IDAT, sPLT, iTXt, tEXt, zTXt}

  /** The five ordering classes are pairwise disjoint. */
  lemma CodeClassesDisjoint()
    ensures CRITICAL !! BEFORE_PALETTE && CRITICAL !! AFTER_PALETTE_BEFORE_DATA
    ensures CRITICAL !! BEFORE_DATA && CRITICAL !! ALLOWED_ANYWHERE
    ensures BEFORE_PALETTE !! AFTER_PALETTE_BEFORE_DATA && BEFORE_PALETTE !! BEFORE_DATA
    ensures BEFORE_PALETTE !! ALLOWED_ANYWHERE && AFTER_PALETTE_BEFORE_DATA !! BEFORE_DATA
    ensures AFTER_PALETTE_BEFORE_DATA !! ALLOWED_ANYWHERE && BEFORE_DATA !! ALLOWED_ANYWHERE
  {
  }

  /** Together the classes are exactly the eighteen standard codes of
      CODE_TYPES, and each repeatable code is one of them. */
  lemma KnownIsStandardCodes()
    ensures KNOWN == CODE_TYPES.Keys && |KNOWN| == 18
    ensures MULTIPLE_ALLOWED <= KNOWN
  {
    KnownWithinStandard();
    StandardWithinKnown();
    CodeTypesSize();
  }

  lemma KnownWithinStandard()
    ensures KNOWN <= CODE_TYPES.Keys
  {
  }

  lemma StandardWithinKnown()
    ensures CODE_TYPES.Keys <= KNOWN
  {
  }

  datatype State =
    | BeforeHeader
    | BeforePalette
    | AfterPaletteBeforeData
    | DuringData
    | AfterData
    | AfterTrailer

  const ALL_STATES: set<State> :=
    {BeforeHeader, BeforePalette, AfterPaletteBeforeData, DuringData, AfterData, AfterTrailer}

  lemma EveryState(s: State)
    ensures s in ALL_STATES
  {
  }

  /** The transition table the parser builds, one map per state: the next
      state for a code, or None when the code is not allowed there. A code
      outside KNOWN takes the state's default for unknown chunks, which the
      first and the final state lack. */
  function NextState(s: State, c: Code): Option<State>
  {
    match s
    case BeforeHeader =>
      if c == IHDR then Some(BeforePalette) else None
    case BeforePalette =>
      if c in BEFORE_PALETTE || c in BEFORE_DATA || c in ALLOWED_ANYWHERE then Some(BeforePalette)
      else if c in AFTER_PALETTE_BEFORE_DATA || c == PLTE then Some(AfterPaletteBeforeData)
      else if c == IDAT then Some(DuringData)
      else if c !in KNOWN then Some(BeforePalette)
      else None
    case AfterPaletteBeforeData =>
      if c in AFTER_PALETTE_BEFORE_DATA || c in BEFORE_DATA || c in ALLOWED_ANYWHERE then Some(AfterPaletteBeforeData)
      else if c == IDAT then Some(DuringData)
      else if c !in KNOWN then Some(AfterPaletteBeforeData)
      else None
    case DuringData =>
      if c == IDAT then Some(DuringData)
      else if c in ALLOWED_ANYWHERE then Some(AfterData)
      else if c == IEND then Some(AfterTrailer)
      else if c !in KNOWN then Some(AfterData)
      else None
    case AfterData =>
      if c in ALLOWED_ANYWHERE then Some(AfterData)
      else if c == IEND then Some(AfterTrailer)
      else if c !in KNOWN then Some(AfterData)
      else None
    case AfterTrailer =>
      None
  }

  /** The shape of the transition table: only IHDR leaves the first state
      and IHDR is refused everywhere else, only IEND after the data reaches
      the final state, IDAT always leads into the data, and nothing leaves
      the final state. */
  lemma NextStateShape(s: State, c: Code)
    ensures s == BeforeHeader ==> (NextState(s, c).Some? <==> c == IHDR)
    ensures c == IHDR && s != BeforeHeader ==> NextState(s, c) == None
    ensures NextState(s, c) == Some(AfterTrailer) <==> c == IEND && (s == DuringData || s == AfterData)
    ensures c == IDAT && NextState(s, c).Some? ==> NextState(s, c) == Some(DuringData)
    ensures s == AfterTrailer ==> NextState(s, c) == None
  {
  }

  /** Pairwise disjoint sets, each disjoint from `existing`. */
  ghost predicate DisjointFrom(codeSets: seq<set<Code>>, existing: set<Code>)
  {
    (forall i :: 0 <= i < |codeSets| ==> codeSets[i] !! existing) &&
    (forall i, j :: 0 <= i < j < |codeSets| ==> codeSets[i] !! codeSets[j])
  }

  /** `after` is `before` with every code of `added` that `before` lacks
      mapped to `next`. */
  ghost predicate AddedOver(after: map<Code, State>, before: map<Code, State>, added: set<Code>, next: State)
  {
    after.Keys == before.Keys + added &&
    forall c :: c in after ==> after[c] == if c in before then before[c] else next
  }

  function UnionOf(codeSets: seq<set<Code>>): set<Code>
  {
    if |codeSets| == 0 then {} else UnionOf(codeSets[..|codeSets| - 1]) + codeSets[|codeSets| - 1]
  }

  /** The transitions out of one state: explicit entries for codes, plus an
      optional next state for codes outside KNOWN. Filled once when the
      parser is built, read afterwards. */
  class TransitionMap {
    var entries: map<Code, State>
    var unknownNext: Option<State>

    constructor()
      ensures entries == map[] && unknownNext == None
    {
      entries := map[];
      unknownNext := None;
    }

    /** add_one_transition: a ValueError if the code already has an entry. */
    method AddOneTransition(next: State, code: Code) returns (r: Outcome)
      modifies this
      ensures r.Fail? <==> code in old(entries)
      ensures r.Fail? ==> r.error == ValueError && entries == old(entries)
      ensures r.Pass? ==> entries == old(entries)[code := next]
      ensures unknownNext == old(unknownNext)
    {
      if code in entries {
        return Fail(ValueError);
      }
      entries := entries[code := next];
      r := Pass;
    }

    /** add_transitions: every code of every set leads to `next`. Succeeds
        exactly when no code is added twice; on failure the entries added so
        far remain and no earlier entry is changed. */
    method AddTransitions(next: State, codeSets: seq<set<Code>>) returns (r: Outcome)
      modifies this
      ensures r.Pass? <==> DisjointFrom(codeSets, old(entries).Keys)
      ensures r.Pass? ==> AddedOver(entries, old(entries), UnionOf(codeSets), next)
      ensures r.Fail? ==> r.error == ValueError && old(entries).Keys <= entries.Keys &&
                          forall c :: c in old(entries) ==> entries[c] == old(entries)[c]
      ensures unknownNext == old(unknownNext)
    {
      var i := 0;
      while i < |codeSets|
        invariant 0 <= i <= |codeSets|
        invariant unknownNext == old(unknownNext)
        invariant DisjointFrom(codeSets[..i], old(entries).Keys)
        invariant AddedOver(entries, old(entries), UnionOf(codeSets[..i]), next)
      {
        var remaining := codeSets[i];
        ghost var done: set<Code> := {};
        while remaining != {}
          invariant remaining + done == codeSets[i] && remaining !! done
          invariant unknownNext == old(unknownNext)
          invariant done !! old(entries).Keys && done !! UnionOf(codeSets[..i])
          invariant AddedOver(entries, old(entries), UnionOf(codeSets[..i]) + done, next)
          decreases remaining
        {
          var c :| c in remaining;
          var added := AddOneTransition(next, c);
          if added.Fail? {
            assert c in old(entries).Keys || c in UnionOf(codeSets[..i]);
            NotDisjoint(codeSets, old(entries).Keys, i, c);
            return added;
          }
          remaining := remaining - {c};
          done := done + {c};
        }
        assert codeSets[..i + 1][..i] == codeSets[..i];
        assert done == codeSets[i];
        forall j | 0 <= j < i
          ensures codeSets[j] !! codeSets[i]
        {
          UnionContains(codeSets[..i], j);
        }
        UnionDisjoint(codeSets[..i], codeSets[i]);
        i := i + 1;
      }
      assert codeSets[..i] == codeSets;
      r := Pass;
    }

    method SetUnknownChunkNextState(next: State)
      modifies this
      ensures unknownNext == Some(next) && entries == old(entries)
    {
      unknownNext := Some(next);
    }

    /** __getitem__: the entry for the code; otherwise the default for
        unknown chunks, which a known code never falls through to; None
        stands for the KeyError, so that `code in map` is `Get(code).Some?`. */
    function Get(code: Code): (r: Option<State>)
      reads this
      ensures code in entries ==> r == Some(entries[code])
      ensures code !in entries && code in KNOWN ==> r == None
      ensures code !in entries && code !in KNOWN ==> r == unknownNext
    {
      if code in entries then Some(entries[code])
      else if unknownNext.None? || code in KNOWN then None
      else unknownNext
    }
  }

  /** The count check: a known code outside MULTIPLE_ALLOWED may not occur
      again once it has been seen; unknown codes may always repeat. */
  predicate CountOk(nseen: nat, c: Code)
  {
    !(nseen >= 1 && c !in MULTIPLE_ALLOWED && c in KNOWN)
  }

  /** _ChunkCountValidator: how often each code has been checked. */
  class ChunkCountValidator {
    var nseen: map<Code, nat>

    constructor()
      ensures nseen == map[]
    {
      nseen := map[];
    }

    /** The Counter lookup: codes never seen count zero. */
    function Count(c: Code): nat
      reads this
    {
      if c in nseen then nseen[c] else 0
    }

    /** check: raises for a forbidden repeat before counting; otherwise the
        code's count goes up by one. */
    method Check(c: Code) returns (r: Outcome)
      modifies this
      ensures r.Pass? <==> CountOk(old(Count(c)), c)
      ensures r.Fail? ==> r.error == PNGSyntaxError(RepeatedChunk) && nseen == old(nseen)
      ensures r.Pass? ==> nseen == old(nseen)[c := old(Count(c)) + 1]
    {
      if Count(c) >= 1 && c !in MULTIPLE_ALLOWED && c in KNOWN {
        return Fail(PNGSyntaxError(RepeatedChunk));
      }
      nseen := nseen[c := Count(c) + 1];
      r := Pass;
    }
  }

  /** The observable configuration of the parser: its state and the codes
      that have passed the count check so far. */
  datatype Config = Config(state: State, seen: multiset<Code>)

  const INITIAL: Config := Config(BeforeHeader, multiset{})

  /** One call of validate: the count check first (which counts the code
      even when the order check then fails), then the transition; on a
      failure the state stays as it was. */
  function Step(cfg: Config, c: Code): (r: (Outcome, Config))
    ensures r.0.Pass? <==> CountOk(cfg.seen[c], c) && NextState(cfg.state, c).Some?
    ensures r.0.Pass? ==> r.1 == Config(NextState(cfg.state, c).value, cfg.seen + multiset{c})
    ensures r.0.Fail? ==> r.1.state == cfg.state
    ensures r.0 == Fail(PNGSyntaxError(OrderViolation)) ==> r.1.seen == cfg.seen + multiset{c}
    ensures r.0.Fail? && r.0 != Fail(PNGSyntaxError(OrderViolation)) ==>
      r == (Fail(PNGSyntaxError(RepeatedChunk)), cfg)
  {
    if !CountOk(cfg.seen[c], c) then (Fail(PNGSyntaxError(RepeatedChunk)), cfg)
    else
      var counted := cfg.(seen := cfg.seen + multiset{c});
      match NextState(cfg.state, c)
      case None => (Fail(PNGSyntaxError(OrderViolation)), counted)
      case Some(next) => (Pass, counted.(state := next))
  }

  /** validate_end. */
  function EndCheck(s: State): (r: Outcome)
    ensures r.Pass? <==> s == AfterTrailer
    ensures r.Fail? ==> r.error == PNGSyntaxError(MissingEnd)
  {
    if s == AfterTrailer then Pass else Fail(PNGSyntaxError(MissingEnd))
  }

  /** validate called on each code in turn, stopping at the first error. */
  function Run(cfg: Config, w: seq<Code>): (r: Result<Config>)
    ensures r.Err? ==> r.error == PNGSyntaxError(OrderViolation) || r.error == PNGSyntaxError(RepeatedChunk)
    decreases |w|
  {
    if |w| == 0 then Ok(cfg)
    else
      var (r, next) := Step(cfg, w[0]);
      if r.Fail? then Err(r.error) else Run(next, w[1..])
  }

  /** A fresh parser accepts the codes and then validate_end passes. */
  predicate Accepts(w: seq<Code>): (accepted: bool)
    ensures accepted ==> |w| >= 1 && w[0] == IHDR
  {
    var r := Run(INITIAL, w);
    r.Ok? && EndCheck(r.value.state).Pass?
  }

  /** ChunkOrderParser: the current state, the count validator and one
      transition map per state, built once by the constructor. */
  class ChunkOrderParser {
    var state: State
    const counts: ChunkCountValidator
    const transitions: map<State, TransitionMap>
    /** The codes that have passed the count check. */
    ghost var seen: multiset<Code>

    ghost predicate Valid()
      reads this, counts, transitions.Values
    {
      transitions.Keys == ALL_STATES &&
      (forall s, c :: s in transitions ==> transitions[s].Get(c) == NextState(s, c)) &&
      (forall c :: counts.Count(c) == seen[c])
    }

    ghost function Current(): Config
      reads this
    {
      Config(state, seen)
    }

    constructor()
      ensures Valid() && Current() == INITIAL
      ensures fresh(counts) && forall s :: s in transitions ==> fresh(transitions[s])
    {
      state := BeforeHeader;
      seen := multiset{};
      counts := new ChunkCountValidator();
      var beforeHeader := BeforeHeaderTransitions();
      var beforePalette := BeforePaletteTransitions();
      var afterPalette := AfterPaletteBeforeDataTransitions();
      var duringData := DuringDataTransitions();
      var afterData := AfterDataTransitions();
      var afterTrailer := new TransitionMap();
      transitions := map[
        BeforeHeader := beforeHeader,
        BeforePalette := beforePalette,
        AfterPaletteBeforeData := afterPalette,
        DuringData := duringData,
        AfterData := afterData,
        AfterTrailer := afterTrailer];
      new;
      forall s: State, c | s in transitions
        ensures transitions[s].Get(c) == NextState(s, c)
      {
        match s
        case BeforeHeader => assert transitions[s] == beforeHeader;
        case BeforePalette => assert transitions[s] == beforePalette;
        case AfterPaletteBeforeData => assert transitions[s] == afterPalette;
        case DuringData => assert transitions[s] == duringData;
        case AfterData => assert transitions[s] == afterData;
        case AfterTrailer => assert transitions[s] == afterTrailer;
      }
    }

    /** validate: one step of the machine on the next code. */
    method Validate(c: Code) returns (r: Outcome)
      requires Valid()
      modifies this, counts
      ensures Valid()
      ensures (r, Current()) == Step(old(Current()), c)
    {
      EveryState(state);
      var counted := counts.Check(c);
      if counted.Fail? {
        return counted;
      }
      seen := seen + multiset{c};
      var available := transitions[state];
      var next := available.Get(c);
      if next.None? {
        return Fail(PNGSyntaxError(OrderViolation));
      }
      state := next.value;
      r := Pass;
    }

    /** validate_end: an error unless IEND was the last code. */
    method ValidateEnd() returns (r: Outcome)
      requires Valid()
      ensures r == EndCheck(state)
      ensures r.Pass? <==> state == AfterTrailer
    {
      if state != AfterTrailer {
        return Fail(PNGSyntaxError(MissingEnd));
      }
      r := Pass;
    }
  }

  method BeforeHeaderTransitions() returns (t: TransitionMap)
    ensures fresh(t) && forall c :: t.Get(c) == NextState(BeforeHeader, c)
  {
    t := new TransitionMap();
    var added := t.AddOneTransition(BeforePalette, IHDR);
  }

  method BeforePaletteTransitions() returns (t: TransitionMap)
    ensures fresh(t) && forall c :: t.Get(c) == NextState(BeforePalette, c)
  {
    t := new TransitionMap();
    t.SetUnknownChunkNextState(BeforePalette);
    CodeClassesDisjoint();
    ThreeSetsDisjoint(BEFORE_PALETTE, BEFORE_DATA, ALLOWED_ANYWHERE);
    var added := t.AddTransitions(BeforePalette, [BEFORE_PALETTE, BEFORE_DATA, ALLOWED_ANYWHERE]);
    UnionOfThree(BEFORE_PALETTE, BEFORE_DATA, ALLOWED_ANYWHERE);
    OneSetDisjoint(AFTER_PALETTE_BEFORE_DATA, t.entries.Keys);
    added := t.AddTransitions(AfterPaletteBeforeData, [AFTER_PALETTE_BEFORE_DATA]);
    UnionOfOne(AFTER_PALETTE_BEFORE_DATA);
    added := t.AddOneTransition(AfterPaletteBeforeData, PLTE);
    added := t.AddOneTransition(DuringData, IDAT);
  }

  method AfterPaletteBeforeDataTransitions() returns (t: TransitionMap)
    ensures fresh(t) && forall c :: t.Get(c) == NextState(AfterPaletteBeforeData, c)
  {
    t := new TransitionMap();
    t.SetUnknownChunkNextState(AfterPaletteBeforeData);
    CodeClassesDisjoint();
    ThreeSetsDisjoint(AFTER_PALETTE_BEFORE_DATA, BEFORE_DATA, ALLOWED_ANYWHERE);
    var added := t.AddTransitions(AfterPaletteBeforeData, [AFTER_PALETTE_BEFORE_DATA, BEFORE_DATA, ALLOWED_ANYWHERE]);
    UnionOfThree(AFTER_PALETTE_BEFORE_DATA, BEFORE_DATA, ALLOWED_ANYWHERE);
    added := t.AddOneTransition(DuringData, IDAT);
  }

  method DuringDataTransitions() returns (t: TransitionMap)
    ensures fresh(t) && forall c :: t.Get(c) == NextState(DuringData, c)
  {
    t := new TransitionMap();
    t.SetUnknownChunkNextState(AfterData);
    var added := t.AddOneTransition(DuringData, IDAT);
    OneSetDisjoint(ALLOWED_ANYWHERE, t.entries.Keys);
    added := t.AddTransitions(AfterData, [ALLOWED_ANYWHERE]);
    UnionOfOne(ALLOWED_ANYWHERE);
    added := t.AddOneTransition(AfterTrailer, IEND);
  }

  method AfterDataTransitions() returns (t: TransitionMap)
    ensures fresh(t) && forall c :: t.Get(c) == NextState(AfterData, c)
  {
    t := new TransitionMap();
    t.SetUnknownChunkNextState(AfterData);
    OneSetDisjoint(ALLOWED_ANYWHERE, t.entries.Keys);
    var added := t.AddTransitions(AfterData, [ALLOWED_ANYWHERE]);
    UnionOfOne(ALLOWED_ANYWHERE);
    added := t.AddOneTransition(AfterTrailer, IEND);
  }

  lemma ThreeSetsDisjoint(a: set<Code>, b: set<Code>, c: set<Code>)
    requires a !! b && a !! c && b !! c
    ensures DisjointFrom([a, b, c], {})
  {
    var codeSets := [a, b, c];
    forall i, j | 0 <= i < j < 3
      ensures codeSets[i] !! codeSets[j]
    {
    }
  }

  lemma OneSetDisjoint(a: set<Code>, existing: set<Code>)
    requires a !! existing
    ensures DisjointFrom([a], existing)
  {
  }

  lemma UnionOfOne(a: set<Code>)
    ensures UnionOf([a]) == a
  {
    assert [a][..0] == [];
  }

  lemma UnionOfThree(a: set<Code>, b: set<Code>, c: set<Code>)
    ensures UnionOf([a, b, c]) == a + b + c
  {
    assert [a, b, c][..2] == [a, b];
    assert [a, b][..1] == [a];
    UnionOfOne(a);
  }

  lemma {:induction false} UnionMember(codeSets: seq<set<Code>>, c: Code)
    ensures c in UnionOf(codeSets) <==> exists j :: 0 <= j < |codeSets| && c in codeSets[j]
  {
    if |codeSets| > 0 {
      var init := codeSets[..|codeSets| - 1];
      UnionMember(init, c);
      if c in UnionOf(init) {
        var j :| 0 <= j < |init| && c in init[j];
        assert codeSets[j] == init[j];
      }
      if exists j :: 0 <= j < |codeSets| && c in codeSets[j] {
        var j :| 0 <= j < |codeSets| && c in codeSets[j];
        if j < |init| { assert c in init[j]; }
      }
    }
  }

  lemma UnionContains(codeSets: seq<set<Code>>, j: nat)
    requires j < |codeSets|
    ensures codeSets[j] <= UnionOf(codeSets)
  {
    forall c | c in codeSets[j]
      ensures c in UnionOf(codeSets)
    {
      UnionMember(codeSets, c);
    }
  }

  lemma UnionDisjoint(codeSets: seq<set<Code>>, s: set<Code>)
    ensures UnionOf(codeSets + [s]) == UnionOf(codeSets) + s
  {
    assert (codeSets + [s])[..|codeSets|] == codeSets;
  }

  lemma NotDisjoint(codeSets: seq<set<Code>>, existing: set<Code>, i: nat, c: Code)
    requires i < |codeSets| && c in codeSets[i]
    requires c in existing || c in UnionOf(codeSets[..i])
    ensures !DisjointFrom(codeSets, existing)
  {
    if c !in existing {
      UnionMember(codeSets[..i], c);
      var j :| 0 <= j < i && c in codeSets[..i][j];
      assert c in codeSets[j] && c in codeSets[i];
    }
  }
}
