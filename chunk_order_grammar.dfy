/**
 * What the chunk-order machine accepts, stated independently of it: the
 * regular language
 *
 *   IHDR (BP|BD|AA|UNK)* PLTE? (APBD|BD|AA|UNK)* IDAT+ (AA|UNK)* IEND
 *
 * (BP before the palette, APBD after the palette and before the data, BD
 * anywhere before the data, AA anywhere, UNK any code outside the standard
 * set), together with the rule that a standard code outside
 * MULTIPLE_ALLOWED occurs at most once.
 */
module ChunkOrderGrammar {
  import opened Common
  import opened ChunkTypes
  import opened ChunkOrder

  /** The transitions alone, from state `s`; None once a code is rejected. */
  function FsmRun(s: State, w: seq<Code>): Option<State>
    decreases |w|
  {
    if |w| == 0 then Some(s)
    else match NextState(s, w[0])
      case None => None
      case Some(next) => FsmRun(next, w[1..])
  }

  predicate FsmAccepts(s: State, w: seq<Code>)
  {
    FsmRun(s, w) == Some(AfterTrailer)
  }

  // The letter classes of the language.
  predicate PrePalette(c: Code)
  {
    c in BEFORE_PALETTE || c in BEFORE_DATA || c in ALLOWED_ANYWHERE || c !in KNOWN
  }

  predicate PostPalette(c: Code)
  {
    c in AFTER_PALETTE_BEFORE_DATA || c in BEFORE_DATA || c in ALLOWED_ANYWHERE || c !in KNOWN
  }

  predicate Trailing(c: Code)
  {
    c in ALLOWED_ANYWHERE || c !in KNOWN
  }

  /** (AA|UNK)* IEND */
  predicate Tail(w: seq<Code>)
  {
    |w| >= 1 && w[|w| - 1] == IEND && forall i :: 0 <= i < |w| - 1 ==> Trailing(w[i])
  }

  /** IDAT^n followed by a Tail. */
  predicate DataSplit(w: seq<Code>, n: nat)
  {
    n <= |w| && (forall i :: 0 <= i < n ==> w[i] == IDAT) && Tail(w[n..])
  }

  /** IDAT* (AA|UNK)* IEND: what may follow the first IDAT. */
  predicate DataRest(w: seq<Code>)
  {
    exists n: nat :: n <= |w| && DataSplit(w, n)
  }

  /** n post-palette codes, then IDAT+ (AA|UNK)* IEND. */
  predicate PostPaletteSplit(w: seq<Code>, n: nat)
  {
    n < |w| && (forall i :: 0 <= i < n ==> PostPalette(w[i])) &&
    w[n] == IDAT && DataRest(w[n + 1..])
  }

  /** (APBD|BD|AA|UNK)* IDAT+ (AA|UNK)* IEND */
  predicate AfterPaletteRest(w: seq<Code>)
  {
    exists n: nat :: n < |w| && PostPaletteSplit(w, n)
  }

  /** n pre-palette codes, then an optional PLTE, then AfterPaletteRest. */
  predicate PrePaletteSplit(w: seq<Code>, n: nat)
  {
    n <= |w| && (forall i :: 0 <= i < n ==> PrePalette(w[i])) &&
    (AfterPaletteRest(w[n..]) || (n < |w| && w[n] == PLTE && AfterPaletteRest(w[n + 1..])))
  }

  /** (BP|BD|AA|UNK)* PLTE? (APBD|BD|AA|UNK)* IDAT+ (AA|UNK)* IEND */
  predicate HeaderRest(w: seq<Code>)
  {
    exists n: nat :: n <= |w| && PrePaletteSplit(w, n)
  }

  /** The whole ordering language. */
  predicate OrderGrammar(w: seq<Code>)
  {
    |w| >= 1 && w[0] == IHDR && HeaderRest(w[1..])
  }

  /** No standard code outside MULTIPLE_ALLOWED occurs twice. */
  predicate NoForbiddenRepeats(w: seq<Code>)
  {
    forall i, j :: 0 <= i < j < |w| && w[i] == w[j] ==> CountOk(1, w[j])
  }

  // ---------------------------------------------------------------------
  // The machine from each state accepts exactly the matching suffix.

  lemma FinalAccepts(w: seq<Code>)
    ensures FsmAccepts(AfterTrailer, w) <==> w == []
  {
  }

  lemma {:induction false} AfterDataAccepts(w: seq<Code>)
    ensures FsmAccepts(AfterData, w) <==> Tail(w)
    decreases |w|
  {
    if |w| > 0 {
      var c := w[0];
      if Trailing(c) {
        AfterDataAccepts(w[1..]);
        assert Tail(w) <==> Tail(w[1..]) by {
          if Tail(w[1..]) {
            forall i | 0 <= i < |w| - 1 ensures Trailing(w[i]) {
              if i > 0 { assert w[i] == w[1..][i - 1]; }
            }
          }
          if Tail(w) {
            assert |w| >= 2 by { assert c != IEND; }
            forall i | 0 <= i < |w[1..]| - 1 ensures Trailing(w[1..][i]) {
              assert w[1..][i] == w[i + 1];
            }
          }
        }
      } else if c == IEND {
        FinalAccepts(w[1..]);
        assert Tail(w) <==> |w| == 1 by {
          if |w| > 1 { assert !Trailing(w[0]); }
        }
      } else {
        assert !Tail(w) by {
          if |w| > 1 { assert !Trailing(w[0]); }
        }
      }
    }
  }

  /** A DataRest split can be shifted past a leading IDAT. */
  lemma DataRestShift(w: seq<Code>)
    requires |w| >= 1 && w[0] == IDAT
    ensures DataRest(w) <==> DataRest(w[1..])
  {
    if DataRest(w) {
      var n: nat :| n <= |w| && DataSplit(w, n);
      assert n >= 1;
      assert w[1..][n - 1..] == w[n..];
      assert DataSplit(w[1..], n - 1);
    }
    if DataRest(w[1..]) {
      var n: nat :| n <= |w[1..]| && DataSplit(w[1..], n);
      assert w[n + 1..] == w[1..][n..];
      forall i | 0 <= i < n + 1 ensures w[i] == IDAT {
        if i > 0 { assert w[i] == w[1..][i - 1]; }
      }
      assert DataSplit(w, n + 1);
    }
  }

  /** Without a leading IDAT, DataRest is just a Tail. */
  lemma DataRestNoData(w: seq<Code>)
    requires |w| == 0 || w[0] != IDAT
    ensures DataRest(w) <==> Tail(w)
  {
    if DataRest(w) {
      var n: nat :| n <= |w| && DataSplit(w, n);
      assert w[0..] == w;
    }
    if Tail(w) {
      assert w[0..] == w;
      assert DataSplit(w, 0);
    }
  }

  lemma {:induction false} DuringDataAccepts(w: seq<Code>)
    ensures FsmAccepts(DuringData, w) <==> DataRest(w)
    decreases |w|
  {
    if |w| == 0 {
      DataRestNoData(w);
    } else {
      var c := w[0];
      if c == IDAT {
        DuringDataAccepts(w[1..]);
        DataRestShift(w);
      } else {
        DataRestNoData(w);
        AfterDataAccepts(w);
        if Trailing(c) {
          AfterDataAccepts(w[1..]);
          assert FsmRun(DuringData, w) == FsmRun(AfterData, w);
        } else if c == IEND {
          assert FsmRun(DuringData, w) == FsmRun(AfterData, w);
        } else {
          assert FsmRun(DuringData, w) == None;
          assert FsmRun(AfterData, w) == None;
        }
      }
    }
  }

  /** Shifting an AfterPaletteRest split past a leading post-palette code. */
  lemma AfterPaletteRestShift(w: seq<Code>)
    requires |w| >= 1 && PostPalette(w[0])
    ensures AfterPaletteRest(w) <==> AfterPaletteRest(w[1..])
  {
    if AfterPaletteRest(w) {
      var n: nat :| n < |w| && PostPaletteSplit(w, n);
      assert n >= 1;
      assert w[1..][n - 1 + 1..] == w[n + 1..];
      assert PostPaletteSplit(w[1..], n - 1);
    }
    if AfterPaletteRest(w[1..]) {
      var n: nat :| n < |w[1..]| && PostPaletteSplit(w[1..], n);
      assert w[n + 1 + 1..] == w[1..][n + 1..];
      forall i | 0 <= i < n + 1 ensures PostPalette(w[i]) {
        if i > 0 { assert w[i] == w[1..][i - 1]; }
      }
      assert PostPaletteSplit(w, n + 1);
    }
  }

  /** With a leading IDAT, AfterPaletteRest is DataRest of the remainder. */
  lemma AfterPaletteRestAtData(w: seq<Code>)
    requires |w| >= 1 && w[0] == IDAT
    ensures AfterPaletteRest(w) <==> DataRest(w[1..])
  {
    if DataRest(w[1..]) {
      assert PostPaletteSplit(w, 0);
    }
  }

  lemma {:induction false} AfterPaletteAccepts(w: seq<Code>)
    ensures FsmAccepts(AfterPaletteBeforeData, w) <==> AfterPaletteRest(w)
    decreases |w|
  {
    if |w| == 0 {
      assert !AfterPaletteRest(w);
    } else {
      var c := w[0];
      if PostPalette(c) {
        AfterPaletteBeforeDataAccepts1(w);
        AfterPaletteAccepts(w[1..]);
        AfterPaletteRestShift(w);
      } else if c == IDAT {
        DuringDataAccepts(w[1..]);
        AfterPaletteRestAtData(w);
      } else {
        assert !AfterPaletteRest(w);
      }
    }
  }

  lemma AfterPaletteBeforeDataAccepts1(w: seq<Code>)
    requires |w| >= 1 && PostPalette(w[0])
    ensures FsmRun(AfterPaletteBeforeData, w) == FsmRun(AfterPaletteBeforeData, w[1..])
  {
  }

  /** Shifting a HeaderRest split past a leading pre-palette code. */
  lemma HeaderRestShift(w: seq<Code>)
    requires |w| >= 1 && PrePalette(w[0])
    ensures HeaderRest(w) <==> HeaderRest(w[1..])
  {
    if HeaderRest(w) {
      HeaderRestDrop(w);
    }
    if HeaderRest(w[1..]) {
      HeaderRestCons(w);
    }
  }

  lemma HeaderRestDrop(w: seq<Code>)
    requires |w| >= 1 && PrePalette(w[0]) && HeaderRest(w)
    ensures HeaderRest(w[1..])
  {
    var n: nat :| n <= |w| && PrePaletteSplit(w, n);
    if n == 0 {
      assert w[0..] == w;
      assert w[0] != PLTE;
      AfterPaletteRestShift(w);
      assert w[1..][0..] == w[1..];
      assert PrePaletteSplit(w[1..], 0);
    } else {
      assert w[1..][n - 1..] == w[n..];
      assert w[1..][n - 1 + 1..] == w[n + 1..];
      assert PrePaletteSplit(w[1..], n - 1);
    }
  }

  lemma HeaderRestCons(w: seq<Code>)
    requires |w| >= 1 && PrePalette(w[0]) && HeaderRest(w[1..])
    ensures HeaderRest(w)
  {
    var n: nat :| n <= |w[1..]| && PrePaletteSplit(w[1..], n);
    assert w[n + 1..] == w[1..][n..];
    assert w[n + 1 + 1..] == w[1..][n + 1..];
    forall i | 0 <= i < n + 1 ensures PrePalette(w[i]) {
      if i > 0 { assert w[i] == w[1..][i - 1]; }
    }
    assert PrePaletteSplit(w, n + 1);
  }

  /** Without a leading pre-palette code, HeaderRest is an optional PLTE
      followed by AfterPaletteRest. */
  lemma HeaderRestAtPalette(w: seq<Code>)
    requires |w| == 0 || !PrePalette(w[0])
    ensures HeaderRest(w) <==>
      AfterPaletteRest(w) || (|w| >= 1 && w[0] == PLTE && AfterPaletteRest(w[1..]))
  {
    if HeaderRest(w) {
      var n: nat :| n <= |w| && PrePaletteSplit(w, n);
      assert w[0..] == w;
    }
    if AfterPaletteRest(w) || (|w| >= 1 && w[0] == PLTE && AfterPaletteRest(w[1..])) {
      assert w[0..] == w;
      assert PrePaletteSplit(w, 0);
    }
  }

  lemma {:induction false} BeforePaletteAccepts(w: seq<Code>)
    ensures FsmAccepts(BeforePalette, w) <==> HeaderRest(w)
    decreases |w|
  {
    if |w| == 0 {
      HeaderRestAtPalette(w);
      assert !AfterPaletteRest(w);
    } else {
      var c := w[0];
      if PrePalette(c) {
        assert FsmRun(BeforePalette, w) == FsmRun(BeforePalette, w[1..]);
        BeforePaletteAccepts(w[1..]);
        HeaderRestShift(w);
      } else {
        HeaderRestAtPalette(w);
        if c == PLTE {
          AfterPaletteAccepts(w[1..]);
          assert !AfterPaletteRest(w);
        } else if c in AFTER_PALETTE_BEFORE_DATA {
          AfterPaletteAccepts(w);
          assert FsmRun(BeforePalette, w) == FsmRun(AfterPaletteBeforeData, w);
        } else if c == IDAT {
          AfterPaletteAccepts(w);
          assert FsmRun(BeforePalette, w) == FsmRun(AfterPaletteBeforeData, w);
        } else {
          assert FsmRun(BeforePalette, w) == None;
          assert !AfterPaletteRest(w);
        }
      }
    }
  }

  /** The transitions accept exactly the ordering language. */
  lemma FsmAcceptsOrderGrammar(w: seq<Code>)
    ensures FsmAccepts(BeforeHeader, w) <==> OrderGrammar(w)
  {
    if |w| >= 1 && w[0] == IHDR {
      BeforePaletteAccepts(w[1..]);
    }
  }

  // ---------------------------------------------------------------------
  // The count check alongside the transitions.

  /** Every code passes the count check when the codes before it (after
      `seen`) have been counted. */
  predicate CountsPass(seen: multiset<Code>, w: seq<Code>)
  {
    forall j :: 0 <= j < |w| ==> CountOk((seen + multiset(w[..j]))[w[j]], w[j])
  }

  lemma CountsPassCons(seen: multiset<Code>, w: seq<Code>)
    requires |w| >= 1
    ensures CountsPass(seen, w) <==>
      CountOk(seen[w[0]], w[0]) && CountsPass(seen + multiset{w[0]}, w[1..])
  {
    forall j | 0 <= j < |w| - 1
      ensures seen + multiset(w[..j + 1]) == seen + multiset{w[0]} + multiset(w[1..][..j])
      ensures w[j + 1] == w[1..][j]
    {
      assert w[..j + 1] == [w[0]] + w[1..][..j];
    }
    assert w[..0] == [];
    if CountOk(seen[w[0]], w[0]) && CountsPass(seen + multiset{w[0]}, w[1..]) {
      forall j | 0 <= j < |w|
        ensures CountOk((seen + multiset(w[..j]))[w[j]], w[j])
      {
        if j > 0 {
          assert CountOk((seen + multiset{w[0]} + multiset(w[1..][..j - 1]))[w[1..][j - 1]], w[1..][j - 1]);
        }
      }
    }
    if CountsPass(seen, w) {
      forall j | 0 <= j < |w[1..]|
        ensures CountOk((seen + multiset{w[0]} + multiset(w[1..][..j]))[w[1..][j]], w[1..][j])
      {
        assert CountOk((seen + multiset(w[..j + 1]))[w[j + 1]], w[j + 1]);
      }
    }
  }

  /** A run of validate calls succeeds exactly when the transitions accept
      the codes and every code passes the count check; the configuration
      reached is the state the transitions reach and every code counted. */
  lemma {:induction false} RunDecomposes(cfg: Config, w: seq<Code>)
    ensures Run(cfg, w).Ok? <==> FsmRun(cfg.state, w).Some? && CountsPass(cfg.seen, w)
    ensures Run(cfg, w).Ok? ==>
      Run(cfg, w).value == Config(FsmRun(cfg.state, w).value, cfg.seen + multiset(w))
    decreases |w|
  {
    if |w| == 0 {
      assert multiset(w) == multiset{};
    } else {
      CountsPassCons(cfg.seen, w);
      var (r, next) := Step(cfg, w[0]);
      if r.Pass? {
        RunDecomposes(next, w[1..]);
        assert w == [w[0]] + w[1..];
        assert multiset(w) == multiset{w[0]} + multiset(w[1..]);
      }
    }
  }

  /** From a fresh parser the count check passes exactly when no standard
      code outside MULTIPLE_ALLOWED is repeated. */
  lemma CountsPassFromStart(w: seq<Code>)
    ensures CountsPass(multiset{}, w) <==> NoForbiddenRepeats(w)
  {
    forall j | 0 <= j < |w|
      ensures CountOk(multiset(w[..j])[w[j]], w[j]) <==>
              forall i :: 0 <= i < j && w[i] == w[j] ==> CountOk(1, w[j])
    {
      if exists i :: 0 <= i < j && w[i] == w[j] {
        var i :| 0 <= i < j && w[i] == w[j];
        assert w[..j][i] == w[j];
      } else {
        assert w[j] !in w[..j];
      }
    }
    assert forall j :: 0 <= j < |w| ==> multiset{} + multiset(w[..j]) == multiset(w[..j]);
  }

  /** validate on each code, then validate_end, succeeds exactly on the
      orderings of the chunk-order language without forbidden repeats. */
  lemma AcceptsIffGrammar(w: seq<Code>)
    ensures Accepts(w) <==> OrderGrammar(w) && NoForbiddenRepeats(w)
  {
    RunDecomposes(INITIAL, w);
    CountsPassFromStart(w);
    FsmAcceptsOrderGrammar(w);
  }

  // ---------------------------------------------------------------------
  // Consequences for an accepted ordering.

  /** The IDAT codes of `v` are exactly the positions p..q-1. */
  predicate IdatRun(v: seq<Code>, p: nat, q: nat)
  {
    p <= q <= |v| && forall k :: 0 <= k < |v| ==> (v[k] == IDAT <==> p <= k < q)
  }

  /** An IDAT run in a suffix is an IDAT run of the whole when the prefix
      has no IDAT. */
  lemma IdatRunShift(v: seq<Code>, m: nat, p: nat, q: nat)
    requires m <= |v| && IdatRun(v[m..], p, q)
    requires forall k :: 0 <= k < m ==> v[k] != IDAT
    ensures IdatRun(v, p + m, q + m)
  {
    forall k | m <= k < |v| ensures v[k] == v[m..][k - m] { }
  }

  lemma DataRestRun(v: seq<Code>) returns (q: nat)
    requires DataRest(v)
    ensures IdatRun(v, 0, q)
  {
    q :| q <= |v| && DataSplit(v, q);
    var t := v[q..];
    forall k | q <= k < |v| ensures v[k] != IDAT {
      assert v[k] == t[k - q];
      if k - q < |t| - 1 { assert Trailing(t[k - q]); }
    }
  }

  lemma AfterPaletteRun(v: seq<Code>) returns (p: nat, q: nat)
    requires AfterPaletteRest(v)
    ensures IdatRun(v, p, q) && p < q
  {
    p :| p < |v| && PostPaletteSplit(v, p);
    var q0 := DataRestRun(v[p + 1..]);
    assert v[p..][1..] == v[p + 1..];
    forall k | 0 <= k < |v[p..]|
      ensures v[p..][k] == IDAT <==> 0 <= k < q0 + 1
    {
      if k > 0 { assert v[p..][k] == v[p + 1..][k - 1]; }
    }
    forall k | 0 <= k < p ensures v[k] != IDAT {
      assert PostPalette(v[k]);
    }
    IdatRunShift(v, p, 0, q0 + 1);
    q := q0 + 1 + p;
  }

  lemma HeaderRestRun(v: seq<Code>) returns (p: nat, q: nat)
    requires HeaderRest(v)
    ensures IdatRun(v, p, q) && p < q
  {
    var n: nat :| n <= |v| && PrePaletteSplit(v, n);
    PrePaletteHasNoData(v, n);
    if AfterPaletteRest(v[n..]) {
      var p0, q0 := AfterPaletteRun(v[n..]);
      IdatRunShift(v, n, p0, q0);
      p, q := p0 + n, q0 + n;
    } else {
      var p0, q0 := AfterPaletteRun(v[n + 1..]);
      IdatRunShift(v, n + 1, p0, q0);
      p, q := p0 + n + 1, q0 + n + 1;
    }
  }

  lemma PrePaletteHasNoData(v: seq<Code>, n: nat)
    requires n <= |v| && PrePaletteSplit(v, n)
    ensures forall k :: 0 <= k < n ==> v[k] != IDAT
    ensures !AfterPaletteRest(v[n..]) ==> forall k :: 0 <= k < n + 1 ==> v[k] != IDAT
  {
    forall k | 0 <= k < n ensures v[k] != IDAT {
      assert PrePalette(v[k]);
    }
  }

  /** An accepted ordering starts with its only IHDR, ends with its only
      IEND, and its IDAT chunks form one non-empty consecutive run. */
  lemma AcceptedShape(w: seq<Code>) returns (p: nat, q: nat)
    requires Accepts(w)
    ensures |w| >= 3 && w[0] == IHDR && w[|w| - 1] == IEND
    ensures forall k :: 0 < k < |w| ==> w[k] != IHDR
    ensures forall k :: 0 <= k < |w| - 1 ==> w[k] != IEND
    ensures 1 <= p < q < |w| && IdatRun(w, p, q)
  {
    AcceptsIffGrammar(w);
    var p0, q0 := HeaderRestRun(w[1..]);
    IdatRunShift(w, 1, p0, q0);
    p, q := p0 + 1, q0 + 1;
    assert w[|w| - 1] == IEND by {
      var n: nat :| n <= |w[1..]| && PrePaletteSplit(w[1..], n);
      LastIsEnd(w[1..], n);
      assert w[|w| - 1] == w[1..][|w[1..]| - 1];
    }
    assert q < |w| by {
      assert w[|w| - 1] != IDAT;
    }
  }

  lemma LastIsEnd(v: seq<Code>, n: nat)
    requires n <= |v| && PrePaletteSplit(v, n)
    ensures |v| >= 1 && v[|v| - 1] == IEND
  {
    var u := if AfterPaletteRest(v[n..]) then v[n..] else v[n + 1..];
    assert AfterPaletteRest(u);
    var m: nat :| m < |u| && PostPaletteSplit(u, m);
    var d := u[m + 1..];
    var r: nat :| r <= |d| && DataSplit(d, r);
    var t := d[r..];
    assert t[|t| - 1] == v[|v| - 1];
  }

  /** Codes outside the standard set never make validate fail while the
      parser is between IHDR and IEND, and leave the state unchanged except
      that they end the image data. */
  lemma UnknownCodesAccepted(s: State, c: Code)
    requires c !in KNOWN
    ensures NextState(s, c).Some? <==> s != BeforeHeader && s != AfterTrailer
    ensures s == DuringData ==> NextState(s, c) == Some(AfterData)
    ensures s != DuringData && NextState(s, c).Some? ==> NextState(s, c) == Some(s)
  {
  }

  const ukwn: Code := Code(0x75, 0x6b, 0x77, 0x6e)

  /** Orderings with and without a palette are accepted. */
  lemma ExamplePlainOrderings()
    ensures Accepts([IHDR, IDAT, IEND])
    ensures Accepts([IHDR, PLTE, IDAT, IEND])
  {
    assert FsmRun(AfterTrailer, []) == Some(AfterTrailer);
    assert NextState(DuringData, IEND) == Some(AfterTrailer);
    assert FsmRun(DuringData, [IEND]) == Some(AfterTrailer);
    assert NextState(AfterPaletteBeforeData, IDAT) == Some(DuringData);
    assert NextState(BeforePalette, IDAT) == Some(DuringData);
    assert [IDAT, IEND][1..] == [IEND];
    assert FsmRun(AfterPaletteBeforeData, [IDAT, IEND]) == Some(AfterTrailer);
    assert FsmRun(BeforePalette, [IDAT, IEND]) == Some(AfterTrailer);
    assert NextState(BeforePalette, PLTE) == Some(AfterPaletteBeforeData);
    assert [PLTE, IDAT, IEND][1..] == [IDAT, IEND];
    assert FsmRun(BeforePalette, [PLTE, IDAT, IEND]) == Some(AfterTrailer);
    assert NextState(BeforeHeader, IHDR) == Some(BeforePalette);
    assert [IHDR, PLTE, IDAT, IEND][1..] == [PLTE, IDAT, IEND];
    assert [IHDR, IDAT, IEND][1..] == [IDAT, IEND];
    AcceptsExample([IHDR, IDAT, IEND]);
    AcceptsExample([IHDR, PLTE, IDAT, IEND]);
  }

  /** Unknown chunks are accepted before and after the palette, and
      between the data and IEND. */
  lemma ExampleUnknownOrderings()
    ensures Accepts([IHDR, ukwn, PLTE, IDAT, IEND])
    ensures Accepts([IHDR, PLTE, ukwn, IDAT, IEND])
    ensures Accepts([IHDR, PLTE, IDAT, ukwn, IEND])
  {
    UnknownBeforePalette();
    UnknownAfterPalette();
    UnknownAfterData();
  }

  /** The common tail: from the data on, IDAT then IEND, with or without an
      unknown chunk between them. */
  lemma DataThenEnd()
    ensures FsmRun(AfterPaletteBeforeData, [IDAT, IEND]) == Some(AfterTrailer)
    ensures FsmRun(AfterPaletteBeforeData, [IDAT, ukwn, IEND]) == Some(AfterTrailer)
  {
    assert FsmRun(AfterTrailer, []) == Some(AfterTrailer);
    assert FsmRun(DuringData, [IEND]) == Some(AfterTrailer);
    assert FsmRun(AfterData, [IEND]) == Some(AfterTrailer);
    assert [ukwn, IEND][1..] == [IEND];
    assert FsmRun(DuringData, [ukwn, IEND]) == Some(AfterTrailer);
    assert [IDAT, IEND][1..] == [IEND];
    assert [IDAT, ukwn, IEND][1..] == [ukwn, IEND];
  }

  lemma UnknownBeforePalette()
    ensures Accepts([IHDR, ukwn, PLTE, IDAT, IEND])
  {
    DataThenEnd();
    assert [PLTE, IDAT, IEND][1..] == [IDAT, IEND];
    assert FsmRun(BeforePalette, [PLTE, IDAT, IEND]) == Some(AfterTrailer);
    assert [ukwn, PLTE, IDAT, IEND][1..] == [PLTE, IDAT, IEND];
    assert FsmRun(BeforePalette, [ukwn, PLTE, IDAT, IEND]) == Some(AfterTrailer);
    assert [IHDR, ukwn, PLTE, IDAT, IEND][1..] == [ukwn, PLTE, IDAT, IEND];
    AcceptsExample([IHDR, ukwn, PLTE, IDAT, IEND]);
  }

  lemma UnknownAfterPalette()
    ensures Accepts([IHDR, PLTE, ukwn, IDAT, IEND])
  {
    DataThenEnd();
    assert [ukwn, IDAT, IEND][1..] == [IDAT, IEND];
    assert FsmRun(AfterPaletteBeforeData, [ukwn, IDAT, IEND]) == Some(AfterTrailer);
    assert [PLTE, ukwn, IDAT, IEND][1..] == [ukwn, IDAT, IEND];
    assert FsmRun(BeforePalette, [PLTE, ukwn, IDAT, IEND]) == Some(AfterTrailer);
    assert [IHDR, PLTE, ukwn, IDAT, IEND][1..] == [PLTE, ukwn, IDAT, IEND];
    AcceptsExample([IHDR, PLTE, ukwn, IDAT, IEND]);
  }

  lemma UnknownAfterData()
    ensures Accepts([IHDR, PLTE, IDAT, ukwn, IEND])
  {
    DataThenEnd();
    assert [PLTE, IDAT, ukwn, IEND][1..] == [IDAT, ukwn, IEND];
    assert FsmRun(BeforePalette, [PLTE, IDAT, ukwn, IEND]) == Some(AfterTrailer);
    assert [IHDR, PLTE, IDAT, ukwn, IEND][1..] == [PLTE, IDAT, ukwn, IEND];
    AcceptsExample([IHDR, PLTE, IDAT, ukwn, IEND]);
  }

  /** Any first chunk other than IHDR is rejected. */
  lemma ExampleFirstChunkNotHeader(c: Code)
    requires c != IHDR
    ensures Run(INITIAL, [c]) == Err(PNGSyntaxError(OrderViolation))
  {
  }

  /** IHDR then IDAT passes validate but not validate_end. */
  lemma ExampleMissingEnd()
    ensures Run(INITIAL, [IHDR, IDAT]).Ok? && !Accepts([IHDR, IDAT])
  {
    var afterHeader := HeaderThenData();
    var inData := Config(DuringData, multiset{IHDR, IDAT});
    assert Run(inData, []) == Ok(inData);
    assert Run(afterHeader, [IDAT]) == Ok(inData);
    assert [IHDR, IDAT][1..] == [IDAT];
  }

  /** A chunk after IEND is rejected. */
  lemma ExampleChunkAfterEnd()
    ensures Run(INITIAL, [IHDR, IDAT, IEND, IDAT]) == Err(PNGSyntaxError(OrderViolation))
  {
    var afterHeader := HeaderThenData();
    var inData := Config(DuringData, multiset{IHDR, IDAT});
    var ended := Config(AfterTrailer, multiset{IHDR, IDAT, IEND});
    assert inData.seen[IEND] == 0;
    assert inData.seen + multiset{IEND} == ended.seen;
    assert Step(inData, IEND) == (Pass, ended);
    assert Step(ended, IDAT).0 == Fail(PNGSyntaxError(OrderViolation));
    assert Run(ended, [IDAT]) == Err(PNGSyntaxError(OrderViolation));
    assert [IEND, IDAT][1..] == [IDAT];
    assert Run(inData, [IEND, IDAT]) == Err(PNGSyntaxError(OrderViolation));
    assert [IDAT, IEND, IDAT][1..] == [IEND, IDAT];
    assert Run(afterHeader, [IDAT, IEND, IDAT]) == Err(PNGSyntaxError(OrderViolation));
    assert [IHDR, IDAT, IEND, IDAT][1..] == [IDAT, IEND, IDAT];
  }

  /** A palette followed directly by IEND is rejected at the IEND. */
  lemma ExamplePaletteWithoutData()
    ensures Run(INITIAL, [IHDR, PLTE, IEND]) == Err(PNGSyntaxError(OrderViolation))
  {
    var afterHeader := HeaderThenData();
    var afterPalette := Config(AfterPaletteBeforeData, multiset{IHDR, PLTE});
    assert afterHeader.seen[PLTE] == 0;
    assert afterHeader.seen + multiset{PLTE} == afterPalette.seen;
    assert Step(afterHeader, PLTE) == (Pass, afterPalette);
    assert afterPalette.seen[IEND] == 0;
    assert Step(afterPalette, IEND).0 == Fail(PNGSyntaxError(OrderViolation));
    assert Run(afterPalette, [IEND]) == Err(PNGSyntaxError(OrderViolation));
    assert [PLTE, IEND][1..] == [IEND];
    assert Run(afterHeader, [PLTE, IEND]) == Err(PNGSyntaxError(OrderViolation));
    assert [IHDR, PLTE, IEND][1..] == [PLTE, IEND];
  }

  /** The configurations after IHDR and after IHDR IDAT. */
  lemma HeaderThenData() returns (afterHeader: Config)
    ensures afterHeader == Config(BeforePalette, multiset{IHDR})
    ensures Step(INITIAL, IHDR) == (Pass, afterHeader)
    ensures Step(afterHeader, IDAT) == (Pass, Config(DuringData, multiset{IHDR, IDAT}))
  {
    afterHeader := Config(BeforePalette, multiset{IHDR});
    assert multiset{} + multiset{IHDR} == multiset{IHDR};
    assert NextState(BeforeHeader, IHDR) == Some(BeforePalette);
    assert afterHeader.seen[IDAT] == 0;
    assert afterHeader.seen + multiset{IDAT} == multiset{IHDR, IDAT};
  }

  /** An ordering that reaches AfterTrailer through the transitions and
      repeats only IDAT or unknown codes is accepted. */
  lemma AcceptsExample(w: seq<Code>)
    requires FsmAccepts(BeforeHeader, w)
    requires forall i, j :: 0 <= i < j < |w| && w[i] == w[j] ==> w[i] == IDAT || w[i] == ukwn
    ensures Accepts(w)
  {
    assert ukwn !in KNOWN && IDAT in MULTIPLE_ALLOWED;
    assert NoForbiddenRepeats(w);
    RunDecomposes(INITIAL, w);
    CountsPassFromStart(w);
  }
}
