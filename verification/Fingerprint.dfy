/**
  The prime fingerprints of bbgroup/bb_ida.py: an instruction is the product of one
  prime for its itype and one for each operand, a block the product of its instructions.
 */
module Fingerprint {
  import opened NumberTheory
  import opened PrimeSieve

  const UA_MAXOP := 6
  const O_LAST := 14
  const O_VOID := 0
  const MAX_PRIMES := 8117
  const OP_P_OFFS := MAX_PRIMES - UA_MAXOP * (O_LAST + 1)

  datatype Operand = Operand(n: nat, optype: nat)
  datatype Insn = Insn(itype: nat, operands: seq<Operand>, size: nat)

  /** What a fingerprint records: an instruction type, or an operand's type and place. */
  datatype Feature = OfItype(itype: nat) | OfOperand(operand: Operand)

  ghost predicate IsTable(primes: seq<nat>) {
    FirstPrimes(primes) && |primes| == MAX_PRIMES
  }

  /** The table that the module precomputes. */
  method PrecomputePrimes() returns (primes: seq<nat>)
    ensures IsTable(primes)
  {
    primes := CachedPrimes(MAX_PRIMES);
  }

  /** What the layout of the table provides for; operands are numbered by position. */
  predicate WellFormed(cmd: Insn) {
    && cmd.itype < OP_P_OFFS
    && |cmd.operands| <= UA_MAXOP
    && forall i :: 0 <= i < |cmd.operands| ==>
         cmd.operands[i].n == i && cmd.operands[i].optype <= O_LAST
  }

  /** The operands before the first void one. */
  function Used(ops: seq<Operand>): seq<Operand> {
    if ops == [] || ops[0].optype == O_VOID then [] else [ops[0]] + Used(ops[1..])
  }

  lemma {:induction false} UsedIsVoidFreePrefix(ops: seq<Operand>)
    ensures Used(ops) <= ops
    ensures forall i :: 0 <= i < |Used(ops)| ==> ops[i].optype != O_VOID
    ensures |Used(ops)| < |ops| ==> ops[|Used(ops)|].optype == O_VOID
  {
    if ops != [] && ops[0].optype != O_VOID {
      UsedIsVoidFreePrefix(ops[1..]);
      assert ops == [ops[0]] + ops[1..];
    }
  }

  function OperandFeatures(ops: seq<Operand>): seq<Feature> {
    if ops == [] then [] else [OfOperand(ops[0])] + OperandFeatures(ops[1..])
  }

  function Features(cmd: Insn): seq<Feature> {
    [OfItype(cmd.itype)] + OperandFeatures(Used(cmd.operands))
  }

  // ----- places in the table --------------------------------------------------

  /** The place in the table of the prime that stands for a feature. */
  function PlaceOf(f: Feature): nat {
    match f
    case OfItype(t) => t
    case OfOperand(op) => OP_P_OFFS + ((op.n * O_LAST) + op.optype)
  }

  function Places(fs: seq<Feature>): (ps: seq<nat>)
    ensures |ps| == |fs| && forall i :: 0 <= i < |fs| ==> ps[i] == PlaceOf(fs[i])
  {
    if fs == [] then [] else [PlaceOf(fs[0])] + Places(fs[1..])
  }

  predicate InTable(fs: seq<Feature>) {
    forall i :: 0 <= i < |fs| ==> PlaceOf(fs[i]) < MAX_PRIMES
  }

  function Factors(primes: seq<nat>, fs: seq<Feature>): (s: seq<nat>)
    requires |primes| == MAX_PRIMES && InTable(fs)
    ensures |s| == |fs|
    ensures forall i :: 0 <= i < |s| ==> s[i] == primes[PlaceOf(fs[i])]
  {
    if fs == [] then [] else [primes[PlaceOf(fs[0])]] + Factors(primes, fs[1..])
  }

  /** The number that encodes a list of features. */
  function Encode(primes: seq<nat>, fs: seq<Feature>): nat
    requires |primes| == MAX_PRIMES && InTable(fs)
  {
    Product(Factors(primes, fs))
  }

  lemma EncodeConcat(primes: seq<nat>, fs: seq<Feature>, gs: seq<Feature>)
    requires |primes| == MAX_PRIMES && InTable(fs) && InTable(gs)
    ensures Encode(primes, fs + gs) == Encode(primes, fs) * Encode(primes, gs)
  {
    hide PlaceOf;
    assert Factors(primes, fs + gs) == Factors(primes, fs) + Factors(primes, gs);
    ProductConcat(Factors(primes, fs), Factors(primes, gs));
  }

  /** Equal counts in two sequences that match each other position by position. */
  lemma {:induction false} AlignedCount<A, B>(s: seq<A>, t: seq<B>, a: A, b: B)
    requires |s| == |t|
    requires forall i :: 0 <= i < |s| ==> (s[i] == a <==> t[i] == b)
    ensures multiset(s)[a] == multiset(t)[b]
  {
    if s != [] {
      AlignedCount(s[1..], t[1..], a, b);
      assert s == [s[0]] + s[1..] && t == [t[0]] + t[1..];
    }
  }

  /** Lists that are the images of two others under a map that is injective on these. */
  lemma ImageMultisets<A, B>(s: seq<A>, t: seq<A>, u: seq<B>, v: seq<B>)
    requires |u| == |s| && |v| == |t|
    requires forall i, j :: 0 <= i < |s| && 0 <= j < |s| ==> (s[i] == s[j] <==> u[i] == u[j])
    requires forall i, j :: 0 <= i < |t| && 0 <= j < |t| ==> (t[i] == t[j] <==> v[i] == v[j])
    requires forall i, j :: 0 <= i < |s| && 0 <= j < |t| ==> (s[i] == t[j] <==> u[i] == v[j])
    ensures multiset(s) == multiset(t) <==> multiset(u) == multiset(v)
  {
    if multiset(s) == multiset(t) {
      ImageWithin(s, t, u, v);
      ImageWithin(t, s, v, u);
    }
    if multiset(u) == multiset(v) {
      ImageWithin(u, v, s, t);
      ImageWithin(v, u, t, s);
    }
  }

  lemma ImageWithin<A, B>(s: seq<A>, t: seq<A>, u: seq<B>, v: seq<B>)
    requires |u| == |s| && |v| == |t|
    requires forall i, j :: 0 <= i < |s| && 0 <= j < |s| ==> (s[i] == s[j] <==> u[i] == u[j])
    requires forall i, j :: 0 <= i < |s| && 0 <= j < |t| ==> (s[i] == t[j] <==> u[i] == v[j])
    requires multiset(s) == multiset(t)
    ensures multiset(u) <= multiset(v)
  {
    forall x | x in u
      ensures multiset(u)[x] == multiset(v)[x]
    {
      var i :| 0 <= i < |u| && u[i] == x;
      AlignedCount(s, u, s[i], x);
      AlignedCount(t, v, s[i], x);
    }
  }

  /** The primes of two places are equal only if the places are. */
  lemma PrimesDiffer(primes: seq<nat>, i: nat, j: nat)
    requires FirstPrimes(primes) && i < |primes| && j < |primes|
    ensures primes[i] == primes[j] <==> i == j
  {
    assert i < j ==> primes[i] < primes[j];
    assert j < i ==> primes[j] < primes[i];
  }

  lemma FactorsPrime(primes: seq<nat>, fs: seq<Feature>)
    requires IsTable(primes) && InTable(fs)
    ensures AllPrime(Factors(primes, fs))
  {
    hide PlaceOf;
  }

  /**
    Unique factorisation makes the encoding exact: two lists of features have one number
    exactly when the places they read in the table agree up to order.
   */
  lemma {:induction false} EncodeExact(primes: seq<nat>, fs: seq<Feature>, gs: seq<Feature>)
    requires IsTable(primes) && InTable(fs) && InTable(gs)
    ensures Encode(primes, fs) == Encode(primes, gs) <==> multiset(Places(fs)) == multiset(Places(gs))
  {
    var s, t := Factors(primes, fs), Factors(primes, gs);
    FactorsPrime(primes, fs);
    FactorsPrime(primes, gs);
    if Product(s) == Product(t) {
      UniqueFactorization(s, t);
    }
    if multiset(s) == multiset(t) {
      ProductOfMultiset(s, t);
    }
    FactorsOfPlaces(primes, fs, gs);
  }

  lemma FactorsOfPlaces(primes: seq<nat>, fs: seq<Feature>, gs: seq<Feature>)
    requires IsTable(primes) && InTable(fs) && InTable(gs)
    ensures multiset(Places(fs)) == multiset(Places(gs)) <==>
            multiset(Factors(primes, fs)) == multiset(Factors(primes, gs))
  {
    hide PlaceOf, FirstPrimes, Factors, Places;
    forall i: nat, j: nat | i < MAX_PRIMES && j < MAX_PRIMES
      ensures primes[i] == primes[j] <==> i == j
    {
      PrimesDiffer(primes, i, j);
    }
    ImageMultisets(Places(fs), Places(gs), Factors(primes, fs), Factors(primes, gs));
  }

  // ----- the layout of the table ----------------------------------------------

  predicate InLayout(f: Feature) {
    match f
    case OfItype(t) => t < OP_P_OFFS
    case OfOperand(op) => op.n < UA_MAXOP && 1 <= op.optype <= O_LAST
  }

  predicate AllInLayout(fs: seq<Feature>) {
    forall i :: 0 <= i < |fs| ==> InLayout(fs[i])
  }

  /** Within the layout no two features share a place. */
  lemma LayoutInjective(f: Feature, g: Feature)
    requires InLayout(f) && InLayout(g)
    ensures PlaceOf(f) < MAX_PRIMES
    ensures PlaceOf(f) == PlaceOf(g) <==> f == g
  {
  }

  /**
    The operand primes follow each other without a gap, type by type and operand by
    operand, from place 8028; an itype has the place of its number.
   */
  lemma OperandPlaces(n: nat, t: nat)
    requires n < UA_MAXOP && 1 <= t <= O_LAST
    ensures PlaceOf(OfItype(t)) == t
    ensures PlaceOf(OfOperand(Operand(0, 1))) == 8028
    ensures PlaceOf(OfOperand(Operand(n, t + 1))) == PlaceOf(OfOperand(Operand(n, t))) + 1
    ensures PlaceOf(OfOperand(Operand(n + 1, 1))) == PlaceOf(OfOperand(Operand(n, O_LAST))) + 1
  {
  }

  lemma LayoutPlaces(fs: seq<Feature>, gs: seq<Feature>)
    requires AllInLayout(fs) && AllInLayout(gs)
    ensures InTable(fs) && InTable(gs)
    ensures multiset(fs) == multiset(gs) <==> multiset(Places(fs)) == multiset(Places(gs))
  {
    hide PlaceOf, InLayout, Places;
    forall f: Feature, g: Feature | InLayout(f) && InLayout(g)
      ensures PlaceOf(f) < MAX_PRIMES && (PlaceOf(f) == PlaceOf(g) <==> f == g)
    {
      LayoutInjective(f, g);
    }
    ImageMultisets(fs, gs, Places(fs), Places(gs));
  }

  /** There the encoding is exact for the features themselves. */
  lemma {:induction false} EncodeFaithful(primes: seq<nat>, fs: seq<Feature>, gs: seq<Feature>)
    requires IsTable(primes) && AllInLayout(fs) && AllInLayout(gs)
    ensures InTable(fs) && InTable(gs)
    ensures Encode(primes, fs) == Encode(primes, gs) <==> multiset(fs) == multiset(gs)
  {
    hide Encode, Places, PlaceOf, FirstPrimes;
    LayoutPlaces(fs, gs);
    EncodeExact(primes, fs, gs);
  }

  // ----- one instruction ------------------------------------------------------

  lemma {:induction false} OperandFeatureAt(ops: seq<Operand>)
    ensures |OperandFeatures(ops)| == |ops|
    ensures forall i :: 0 <= i < |ops| ==> OperandFeatures(ops)[i] == OfOperand(ops[i])
  {
    if ops != [] {
      OperandFeatureAt(ops[1..]);
    }
  }

  lemma FeaturesInLayout(cmd: Insn)
    requires WellFormed(cmd)
    ensures AllInLayout(Features(cmd))
    ensures forall op :: op in Used(cmd.operands) ==> InLayout(OfOperand(op))
  {
    UsedIsVoidFreePrefix(cmd.operands);
    OperandFeatureAt(Used(cmd.operands));
  }

  /** All the places that an instruction reads are in the table. */
  predicate Readable(cmd: Insn) {
    InTable(Features(cmd))
  }

  lemma WellFormedReadable(cmd: Insn)
    requires WellFormed(cmd)
    ensures Readable(cmd) && AllInLayout(Features(cmd))
  {
    FeaturesInLayout(cmd);
    LayoutPlaces(Features(cmd), []);
  }

  /** The prime characteristic of an instruction, as a value. */
  ghost function Characteristic(primes: seq<nat>, cmd: Insn): nat
    requires |primes| == MAX_PRIMES && Readable(cmd)
  {
    Encode(primes, Features(cmd))
  }

  method GetCmdPrimeCharacteristics(primes: seq<nat>, cmd: Insn) returns (r: nat)
    requires |primes| == MAX_PRIMES && Readable(cmd)
    ensures r == Characteristic(primes, cmd)
  {
    CharacteristicParts(primes, cmd);
    hide Readable, Characteristic, Product, Factors;
    r := primes[cmd.itype];
    var ro := OperandProduct(primes, cmd);
    r := r * ro;
  }

  /** The loop over the operands. */
  method OperandProduct(primes: seq<nat>, cmd: Insn) returns (ro: nat)
    requires |primes| == MAX_PRIMES && InTable(OperandFeatures(Used(cmd.operands)))
    ensures ro == Product(Factors(primes, OperandFeatures(Used(cmd.operands))))
  {
    hide Used, OperandFeatures, Product;
    ghost var ops := Used(cmd.operands);
    ghost var factors := Factors(primes, OperandFeatures(ops));
    NoFactors();
    UsedIsVoidFreePrefix(cmd.operands);
    OperandFeatureAt(ops);
    ro := 1;
    var i := 0;
    while i < |cmd.operands|
      invariant 0 <= i <= |ops|
      invariant ro == Product(factors[..i])
    {
      var op := cmd.operands[i];
      if op.optype == O_VOID {
        break;
      }
      assert OperandFeatures(ops)[i] == OfOperand(op);
      var x := primes[OP_P_OFFS + ((op.n * O_LAST) + op.optype)];
      assert factors[..i + 1] == factors[..i] + [x];
      ProductSnoc(factors[..i], x);
      ro := ro * x;
      i := i + 1;
    }
    assert i == |ops| && factors[..i] == factors;
  }

  lemma NoFactors()
    ensures Product([]) == 1
  {
  }

  lemma CharacteristicParts(primes: seq<nat>, cmd: Insn)
    requires |primes| == MAX_PRIMES && Readable(cmd)
    ensures cmd.itype < MAX_PRIMES && InTable(OperandFeatures(Used(cmd.operands)))
    ensures Characteristic(primes, cmd) ==
            primes[cmd.itype] * Product(Factors(primes, OperandFeatures(Used(cmd.operands))))
  {
    var fs, ops := Features(cmd), OperandFeatures(Used(cmd.operands));
    assert fs[0] == OfItype(cmd.itype) && fs[1..] == ops;
    forall i | 0 <= i < |ops|
      ensures PlaceOf(ops[i]) < MAX_PRIMES
    {
      assert fs[i + 1] == ops[i];
    }
    var s := Factors(primes, fs);
    assert s[1..] == Factors(primes, ops);
  }

  /** The number of an instruction: the prime of its type times those of its used operands. */
  lemma {:induction false} CharacteristicIs(primes: seq<nat>, cmd: Insn, s: seq<nat>)
    requires |primes| == MAX_PRIMES && Readable(cmd)
    requires var u := Used(cmd.operands);
             |s| == |u| && forall i :: 0 <= i < |s| ==>
               var place := 8027 + 14 * u[i].n + u[i].optype;
               place < MAX_PRIMES && s[i] == primes[place]
    ensures cmd.itype < MAX_PRIMES && Characteristic(primes, cmd) == primes[cmd.itype] * Product(s)
  {
    hide Product, Used;
    var ops := OperandFeatures(Used(cmd.operands));
    CharacteristicParts(primes, cmd);
    OperandFeatureAt(Used(cmd.operands));
    assert s == Factors(primes, ops);
  }

  /** The same places of the table are read, up to order. */
  ghost predicate SamePlaces(c: Insn, d: Insn) {
    multiset(Places(Features(c))) == multiset(Places(Features(d)))
  }

  /** Two instructions have one characteristic exactly when they read the same places. */
  lemma {:induction false} CharacteristicExact(primes: seq<nat>, c: Insn, d: Insn)
    requires IsTable(primes) && Readable(c) && Readable(d)
    ensures Characteristic(primes, c) == Characteristic(primes, d) <==> SamePlaces(c, d)
  {
    hide Encode, Places, Features, FirstPrimes, InTable;
    EncodeExact(primes, Features(c), Features(d));
  }

  /** Two instructions of one type whose operands agree up to the first void one. */
  predicate Alike(c: Insn, d: Insn) {
    c.itype == d.itype && Used(c.operands) == Used(d.operands)
  }

  lemma SharedOperand(c: Insn, d: Insn, i: nat)
    requires WellFormed(c) && WellFormed(d) && i < |Used(c.operands)|
    requires OfOperand(Used(c.operands)[i]) in Features(d)
    ensures i < |Used(d.operands)| && Used(d.operands)[i] == Used(c.operands)[i]
  {
    UsedIsVoidFreePrefix(c.operands);
    UsedIsVoidFreePrefix(d.operands);
    OperandFeatureAt(Used(d.operands));
    var j :| 0 <= j < |Features(d)| && Features(d)[j] == OfOperand(Used(c.operands)[i]);
    assert Used(d.operands)[j - 1] == Used(c.operands)[i];
  }

  lemma UsedWithin(c: Insn, d: Insn)
    requires WellFormed(c) && WellFormed(d)
    requires multiset(Features(c)) == multiset(Features(d))
    ensures c.itype == d.itype
    ensures Used(c.operands) <= Used(d.operands)
  {
    var u, v := Used(c.operands), Used(d.operands);
    OperandFeatureAt(u);
    OperandFeatureAt(v);
    assert Features(c)[0] in multiset(Features(d));
    assert OfItype(c.itype) in Features(d);
    forall i | 0 <= i < |u|
      ensures i < |v| && v[i] == u[i]
    {
      assert Features(c)[i + 1] in multiset(Features(d));
      SharedOperand(c, d, i);
    }
  }

  /** Within the layout, reading the same places means being alike. */
  lemma AlikeIff(c: Insn, d: Insn)
    requires WellFormed(c) && WellFormed(d)
    ensures SamePlaces(c, d) <==> Alike(c, d)
  {
    WellFormedReadable(c);
    WellFormedReadable(d);
    LayoutPlaces(Features(c), Features(d));
    if multiset(Features(c)) == multiset(Features(d)) {
      UsedWithin(c, d);
      UsedWithin(d, c);
    }
  }

  /** There the characteristic of an instruction is faithful. */
  lemma CharacteristicFaithful(primes: seq<nat>, c: Insn, d: Insn)
    requires IsTable(primes) && WellFormed(c) && WellFormed(d)
    ensures Readable(c) && Readable(d)
    ensures Characteristic(primes, c) == Characteristic(primes, d) <==> Alike(c, d)
  {
    hide Characteristic, WellFormed, FirstPrimes, Alike, SamePlaces;
    WellFormedReadable(c);
    WellFormedReadable(d);
    CharacteristicExact(primes, c, d);
    AlikeIff(c, d);
  }

  /** An itype in the operand area of the table is taken for an operand. */
  lemma ItypesCollide(primes: seq<nat>, c: Insn, d: Insn)
    requires IsTable(primes)
    requires c == Insn(OP_P_OFFS + 2, [Operand(0, 1)], 1) && d == Insn(OP_P_OFFS + 1, [Operand(0, 2)], 1)
    ensures !Alike(c, d) && Readable(c) && Readable(d)
    ensures Characteristic(primes, c) == Characteristic(primes, d)
  {
    hide FirstPrimes, Characteristic;
    UsedOne(c.operands);
    UsedOne(d.operands);
    assert Places(Features(c)) == [OP_P_OFFS + 2, OP_P_OFFS + 1];
    assert Places(Features(d)) == [OP_P_OFFS + 1, OP_P_OFFS + 2];
    CharacteristicExact(primes, c, d);
  }

  lemma {:induction false} UsedOne(ops: seq<Operand>)
    requires |ops| == 1 && ops[0].optype != O_VOID
    ensures Used(ops) == ops && OperandFeatures(ops) == [OfOperand(ops[0])]
  {
    assert ops[1..] == [];
    assert ops == [ops[0]];
  }

  lemma {:induction false} UsedTwo(ops: seq<Operand>)
    requires |ops| == 2 && ops[0].optype != O_VOID && ops[1].optype != O_VOID
    ensures Used(ops) == ops && OperandFeatures(ops) == [OfOperand(ops[0]), OfOperand(ops[1])]
  {
    UsedOne(ops[1..]);
    assert ops == [ops[0]] + ops[1..];
  }

  /** An operand type above o_last is taken for an operand of the next place. */
  lemma OperandTypesCollide(primes: seq<nat>, t: nat, c: Insn, d: Insn)
    requires IsTable(primes) && t < OP_P_OFFS
    requires c == Insn(t, [Operand(0, O_LAST + 1), Operand(1, 2)], 1)
    requires d == Insn(t, [Operand(0, O_LAST + 2), Operand(1, 1)], 1)
    ensures !Alike(c, d) && Readable(c) && Readable(d)
    ensures Characteristic(primes, c) == Characteristic(primes, d)
  {
    hide FirstPrimes, Characteristic;
    UsedTwo(c.operands);
    UsedTwo(d.operands);
    assert c.operands[0] != d.operands[0];
    assert Places(Features(c)) == [t, OP_P_OFFS + 15, OP_P_OFFS + 16];
    assert Places(Features(d)) == [t, OP_P_OFFS + 16, OP_P_OFFS + 15];
    CharacteristicExact(primes, c, d);
  }

  // ----- one block ------------------------------------------------------------

  /** The decoder as a table: what it finds at an address, if anything. */
  type Code = map<nat, Insn>

  predicate Decodable(code: Code) {
    forall a :: a in code ==> code[a].size > 0 && Readable(code[a])
  }

  /** The instructions of [start, end), up to the first address that does not decode. */
  function Decoded(code: Code, start: nat, end: nat): (cmds: seq<Insn>)
    requires Decodable(code)
    ensures AllReadable(cmds)
    decreases end - start
  {
    if start < end && start in code
    then [code[start]] + Decoded(code, start + code[start].size, end)
    else []
  }

  /** at lists the addresses of the instructions, and the one at which decoding stops. */
  ghost predicate DecodedAt(code: Code, start: nat, end: nat, cmds: seq<Insn>, at: seq<nat>) {
    && |at| == |cmds| + 1 && at[0] == start
    && (forall i :: 0 <= i < |cmds| ==>
          at[i] < end && at[i] in code && cmds[i] == code[at[i]] && at[i + 1] == at[i] + cmds[i].size)
    && (at[|cmds|] >= end || at[|cmds|] !in code)
  }

  /** Each instruction starts where the one before it ends. */
  lemma {:induction false} DecodedMeans(code: Code, start: nat, end: nat) returns (at: seq<nat>)
    requires Decodable(code)
    ensures DecodedAt(code, start, end, Decoded(code, start, end), at)
    decreases end - start
  {
    hide Readable;
    at := [start];
    if start < end && start in code {
      var rest := DecodedMeans(code, start + code[start].size, end);
      at := at + rest;
      var cmds := Decoded(code, start, end);
      forall i | 0 <= i < |cmds|
        ensures at[i] < end && at[i] in code && cmds[i] == code[at[i]] && at[i + 1] == at[i] + cmds[i].size
      {
        if i > 0 {
          assert cmds[i] == cmds[1..][i - 1] && at[i] == rest[i - 1] && at[i + 1] == rest[i];
        }
      }
    }
  }

  predicate AllReadable(cmds: seq<Insn>) {
    forall i :: 0 <= i < |cmds| ==> Readable(cmds[i])
  }

  predicate AllWellFormed(cmds: seq<Insn>) {
    forall i :: 0 <= i < |cmds| ==> WellFormed(cmds[i])
  }

  function BlockFeatures(cmds: seq<Insn>): seq<Feature> {
    if cmds == [] then [] else Features(cmds[0]) + BlockFeatures(cmds[1..])
  }

  function Itypes(cmds: seq<Insn>): seq<nat> {
    if cmds == [] then [] else [cmds[0].itype] + Itypes(cmds[1..])
  }

  function UsedOperands(cmds: seq<Insn>): seq<Operand> {
    if cmds == [] then [] else Used(cmds[0].operands) + UsedOperands(cmds[1..])
  }

  lemma {:induction false} OperandFeatureCount(ops: seq<Operand>, op: Operand)
    ensures multiset(OperandFeatures(ops))[OfOperand(op)] == multiset(ops)[op]
    ensures forall t :: multiset(OperandFeatures(ops))[OfItype(t)] == 0
  {
    if ops != [] {
      OperandFeatureCount(ops[1..], op);
      assert ops == [ops[0]] + ops[1..];
    }
  }

  /** A block's features are its itypes and its used operands, counted separately. */
  lemma {:induction false} BlockFeatureCount(cmds: seq<Insn>, t: nat, op: Operand)
    ensures multiset(BlockFeatures(cmds))[OfItype(t)] == multiset(Itypes(cmds))[t]
    ensures multiset(BlockFeatures(cmds))[OfOperand(op)] == multiset(UsedOperands(cmds))[op]
  {
    if cmds != [] {
      BlockFeatureCount(cmds[1..], t, op);
      OperandFeatureCount(Used(cmds[0].operands), op);
    }
  }

  ghost function Characteristics(primes: seq<nat>, cmds: seq<Insn>): (s: seq<nat>)
    requires |primes| == MAX_PRIMES && AllReadable(cmds)
    ensures |s| == |cmds|
    ensures forall i :: 0 <= i < |s| ==> s[i] == Characteristic(primes, cmds[i])
  {
    seq(|cmds|, i requires 0 <= i < |cmds| => Characteristic(primes, cmds[i]))
  }

  /** The number hashed for a block, as a value. */
  ghost function BlockProduct(primes: seq<nat>, cmds: seq<Insn>): nat
    requires |primes| == MAX_PRIMES && AllReadable(cmds)
  {
    Product(Characteristics(primes, cmds))
  }

  lemma {:induction false} BlockReadable(cmds: seq<Insn>)
    requires AllReadable(cmds)
    ensures InTable(BlockFeatures(cmds))
  {
    hide PlaceOf, Features;
    if cmds != [] {
      BlockReadable(cmds[1..]);
      assert Readable(cmds[0]);
    }
  }

  lemma {:induction false} BlockProductEncodes(primes: seq<nat>, cmds: seq<Insn>)
    requires |primes| == MAX_PRIMES && AllReadable(cmds)
    ensures InTable(BlockFeatures(cmds))
    ensures BlockProduct(primes, cmds) == Encode(primes, BlockFeatures(cmds))
  {
    hide InTable, Features;
    BlockReadable(cmds);
    if cmds != [] {
      BlockReadable(cmds[1..]);
      BlockProductEncodes(primes, cmds[1..]);
      assert Characteristics(primes, cmds)[1..] == Characteristics(primes, cmds[1..]);
      EncodeConcat(primes, Features(cmds[0]), BlockFeatures(cmds[1..]));
    }
  }

  /** Two blocks have one product exactly when they read the same places, up to order. */
  lemma {:induction false} BlockProductExact(primes: seq<nat>, c: seq<Insn>, d: seq<Insn>)
    requires IsTable(primes) && AllReadable(c) && AllReadable(d)
    ensures BlockProduct(primes, c) == BlockProduct(primes, d) <==>
              multiset(Places(BlockFeatures(c))) == multiset(Places(BlockFeatures(d)))
  {
    hide Encode, BlockProduct, Places, BlockFeatures, FirstPrimes, InTable;
    BlockProductEncodes(primes, c);
    BlockProductEncodes(primes, d);
    EncodeExact(primes, BlockFeatures(c), BlockFeatures(d));
  }

  lemma {:induction false} BlockLayout(cmds: seq<Insn>)
    requires AllWellFormed(cmds)
    ensures AllReadable(cmds) && AllInLayout(BlockFeatures(cmds))
  {
    hide WellFormed, Readable, Features, InLayout;
    if cmds != [] {
      BlockLayout(cmds[1..]);
      WellFormedReadable(cmds[0]);
      assert cmds == [cmds[0]] + cmds[1..];
    }
  }

  /**
    Within the layout two blocks have one product exactly when their itypes agree as a
    multiset and their used operands (place and type) agree as a multiset.
   */
  lemma {:induction false} BlockProductFaithful(primes: seq<nat>, c: seq<Insn>, d: seq<Insn>)
    requires IsTable(primes) && AllWellFormed(c) && AllWellFormed(d)
    ensures AllReadable(c) && AllReadable(d)
    ensures BlockProduct(primes, c) == BlockProduct(primes, d) <==>
              multiset(Itypes(c)) == multiset(Itypes(d)) &&
              multiset(UsedOperands(c)) == multiset(UsedOperands(d))
  {
    hide BlockProduct, Places, BlockFeatures, FirstPrimes, AllWellFormed, AllReadable, Itypes, UsedOperands;
    BlockLayout(c);
    BlockLayout(d);
    BlockProductExact(primes, c, d);
    LayoutPlaces(BlockFeatures(c), BlockFeatures(d));
    FeatureMultisets(c, d);
  }

  lemma FeatureMultisets(c: seq<Insn>, d: seq<Insn>)
    ensures multiset(BlockFeatures(c)) == multiset(BlockFeatures(d)) <==>
              multiset(Itypes(c)) == multiset(Itypes(d)) &&
              multiset(UsedOperands(c)) == multiset(UsedOperands(d))
  {
    if multiset(BlockFeatures(c)) == multiset(BlockFeatures(d)) {
      SameLists(c, d);
    }
    if multiset(Itypes(c)) == multiset(Itypes(d)) &&
       multiset(UsedOperands(c)) == multiset(UsedOperands(d)) {
      SameBlockFeatures(c, d);
    }
  }

  lemma SameLists(c: seq<Insn>, d: seq<Insn>)
    requires multiset(BlockFeatures(c)) == multiset(BlockFeatures(d))
    ensures multiset(Itypes(c)) == multiset(Itypes(d))
    ensures multiset(UsedOperands(c)) == multiset(UsedOperands(d))
  {
    forall t: nat
      ensures multiset(Itypes(c))[t] == multiset(Itypes(d))[t]
    {
      BlockFeatureCount(c, t, Operand(0, 0));
      BlockFeatureCount(d, t, Operand(0, 0));
    }
    forall op: Operand
      ensures multiset(UsedOperands(c))[op] == multiset(UsedOperands(d))[op]
    {
      BlockFeatureCount(c, 0, op);
      BlockFeatureCount(d, 0, op);
    }
  }

  lemma SameBlockFeatures(c: seq<Insn>, d: seq<Insn>)
    requires multiset(Itypes(c)) == multiset(Itypes(d))
    requires multiset(UsedOperands(c)) == multiset(UsedOperands(d))
    ensures multiset(BlockFeatures(c)) == multiset(BlockFeatures(d))
  {
    forall f: Feature
      ensures multiset(BlockFeatures(c))[f] == multiset(BlockFeatures(d))[f]
    {
      match f
      case OfItype(t) =>
        BlockFeatureCount(c, t, Operand(0, 0));
        BlockFeatureCount(d, t, Operand(0, 0));
      case OfOperand(op) =>
        BlockFeatureCount(c, 0, op);
        BlockFeatureCount(d, 0, op);
    }
  }

  /** The product does not depend on the order of the instructions. */
  lemma {:induction false} BlockProductOrderFree(primes: seq<nat>, c: seq<Insn>, d: seq<Insn>)
    requires |primes| == MAX_PRIMES && AllReadable(c) && AllReadable(d)
    requires multiset(c) == multiset(d)
    ensures BlockProduct(primes, c) == BlockProduct(primes, d)
  {
    if c == [] {
      assert |multiset(d)| == 0;
    } else {
      var j := FindIn(c, d);
      var d' := d[..j] + d[j + 1..];
      BlockProductOrderFree(primes, c[1..], d');
      BlockProductRemove(primes, c, 0);
      assert c[..0] + c[1..] == c[1..];
      BlockProductRemove(primes, d, j);
    }
  }

  lemma FindIn<A>(c: seq<A>, d: seq<A>) returns (j: nat)
    requires c != [] && multiset(c) == multiset(d)
    ensures j < |d| && d[j] == c[0]
    ensures multiset(c[1..]) == multiset(d[..j] + d[j + 1..])
  {
    assert c[0] in multiset(d);
    j :| 0 <= j < |d| && d[j] == c[0];
    MultisetRest(c);
    MultisetRemove(d, j);
  }

  lemma MultisetRest<A>(c: seq<A>)
    requires c != []
    ensures multiset(c[1..]) == multiset(c) - multiset{c[0]}
  {
    assert c == [c[0]] + c[1..];
  }

  lemma BlockProductRemove(primes: seq<nat>, cmds: seq<Insn>, i: nat)
    requires |primes| == MAX_PRIMES && AllReadable(cmds) && i < |cmds|
    ensures BlockProduct(primes, cmds) ==
            Characteristic(primes, cmds[i]) * BlockProduct(primes, cmds[..i] + cmds[i + 1..])
  {
    var s := Characteristics(primes, cmds);
    ProductRemove(s, i);
    assert Characteristics(primes, cmds[..i] + cmds[i + 1..]) == s[..i] + s[i + 1..];
  }

  /** The instruction found at `at` is the next one of the block. */
  lemma DecodedStep(code: Code, cmds: seq<Insn>, t: nat, at: nat, end: nat)
    requires Decodable(code) && at < end && at in code
    requires t <= |cmds| && cmds[t..] == Decoded(code, at, end)
    ensures t < |cmds| && cmds[t] == code[at] && Readable(code[at]) && code[at].size > 0
    ensures cmds[t + 1..] == Decoded(code, at + code[at].size, end)
  {
    assert cmds[t..][0] == cmds[t] && cmds[t + 1..] == cmds[t..][1..];
  }

  lemma DecodedEnd(code: Code, at: nat, end: nat)
    requires Decodable(code) && !(at < end && at in code)
    ensures Decoded(code, at, end) == []
  {
  }

  /** hash_itype2 up to the digest. */
  method HashItype2Product(primes: seq<nat>, code: Code, start: nat, end: nat) returns (r: nat)
    requires |primes| == MAX_PRIMES && Decodable(code)
    ensures r == BlockProduct(primes, Decoded(code, start, end))
  {
    hide Decoded, Readable, Characteristic;
    ghost var cmds := Decoded(code, start, end);
    ghost var chars := Characteristics(primes, cmds);
    r := 1;
    var at := start;
    ghost var t := 0;
    while at < end && at in code
      invariant t <= |cmds| && cmds[t..] == Decoded(code, at, end)
      invariant r == Product(chars[..t])
      decreases end - at
    {
      var cmd := code[at];
      DecodedStep(code, cmds, t, at, end);
      var c := GetCmdPrimeCharacteristics(primes, cmd);
      assert chars[..t + 1] == chars[..t] + [c];
      ProductSnoc(chars[..t], c);
      r := r * c;
      at, t := at + cmd.size, t + 1;
    }
    DecodedEnd(code, at, end);
    assert chars[..t] == chars;
  }

  // ----- the frequency table --------------------------------------------------

  /** How many instructions satisfy p. */
  ghost function Count(cmds: seq<Insn>, p: Insn -> bool): nat {
    if cmds == [] then 0 else (if p(cmds[0]) then 1 else 0) + Count(cmds[1..], p)
  }

  /** Each value of a list with its number of occurrences. */
  function Tally(s: seq<nat>): map<nat, nat> {
    if s == [] then map[] else
      var d, r := Tally(s[..|s| - 1]), s[|s| - 1];
      d[r := (if r in d then d[r] else 0) + 1]
  }

  lemma {:induction false} TallyCounts(s: seq<nat>, r: nat)
    ensures r in Tally(s) <==> r in s
    ensures r in s ==> Tally(s)[r] == multiset(s)[r]
  {
    if s != [] {
      var n := |s| - 1;
      TallyCounts(s[..n], r);
      assert s == s[..n] + [s[n]];
    }
  }

  ghost function EntryOf(d: map<nat, nat>, r: nat): nat {
    if r in d then d[r] else 0
  }

  /** The entry of a characteristic counts the instructions that read the same places. */
  lemma {:induction false} FrequencyExact(primes: seq<nat>, cmds: seq<Insn>, c: Insn)
    requires IsTable(primes) && AllReadable(cmds) && Readable(c)
    ensures EntryOf(Tally(Characteristics(primes, cmds)), Characteristic(primes, c)) ==
            Count(cmds, x => SamePlaces(x, c))
  {
    hide Readable, Characteristic, SamePlaces, FirstPrimes, Tally, Count;
    forall i | 0 <= i < |cmds|
      ensures SamePlaces(cmds[i], c) <==>
              Characteristics(primes, cmds)[i] == Characteristic(primes, c)
    {
      CharacteristicExact(primes, cmds[i], c);
    }
    CountIs(cmds, x => SamePlaces(x, c), Characteristics(primes, cmds), Characteristic(primes, c));
    TallyCounts(Characteristics(primes, cmds), Characteristic(primes, c));
  }

  /** Within the layout it counts the instructions alike to its own. */
  lemma {:induction false} FrequencyCountsAlike(primes: seq<nat>, cmds: seq<Insn>, c: Insn)
    requires IsTable(primes) && AllWellFormed(cmds) && WellFormed(c)
    ensures AllReadable(cmds) && Readable(c)
    ensures EntryOf(Tally(Characteristics(primes, cmds)), Characteristic(primes, c)) ==
            Count(cmds, x => Alike(x, c))
  {
    hide Characteristic, SamePlaces, FirstPrimes, Tally, Count, WellFormed, Readable, EntryOf, Alike;
    BlockLayout(cmds);
    WellFormedReadable(c);
    FrequencyExact(primes, cmds, c);
    forall i | 0 <= i < |cmds|
      ensures SamePlaces(cmds[i], c) <==> Alike(cmds[i], c)
    {
      AlikeIff(cmds[i], c);
    }
    CountSame(cmds, x => SamePlaces(x, c), x => Alike(x, c));
  }

  lemma {:induction false} CountSame(cmds: seq<Insn>, p: Insn -> bool, q: Insn -> bool)
    requires forall i :: 0 <= i < |cmds| ==> p(cmds[i]) == q(cmds[i])
    ensures Count(cmds, p) == Count(cmds, q)
  {
    if cmds != [] {
      CountSame(cmds[1..], p, q);
    }
  }

  lemma {:induction false} CountIs(cmds: seq<Insn>, p: Insn -> bool, s: seq<nat>, x: nat)
    requires |s| == |cmds|
    requires forall i :: 0 <= i < |s| ==> (p(cmds[i]) <==> s[i] == x)
    ensures multiset(s)[x] == Count(cmds, p)
  {
    if s != [] {
      CountIs(cmds[1..], p, s[1..], x);
      assert s == [s[0]] + s[1..];
    }
  }

  method GetBlockFrequency(primes: seq<nat>, code: Code, start: nat, end: nat)
    returns (t: nat, d: map<nat, nat>)
    requires |primes| == MAX_PRIMES && Decodable(code)
    ensures t == |Decoded(code, start, end)|
    ensures d == Tally(Characteristics(primes, Decoded(code, start, end)))
  {
    hide Decoded, Readable, Characteristic;
    ghost var cmds := Decoded(code, start, end);
    ghost var chars := Characteristics(primes, cmds);
    d, t := map[], 0;
    var at := start;
    while at < end && at in code
      invariant t <= |cmds| && cmds[t..] == Decoded(code, at, end)
      invariant d == Tally(chars[..t])
      decreases end - at
    {
      var cmd := code[at];
      DecodedStep(code, cmds, t, at, end);
      var r := GetCmdPrimeCharacteristics(primes, cmd);
      var v := if r in d then d[r] else 0;
      assert chars[..t + 1][..t] == chars[..t] && chars[t] == r;
      d := d[r := v + 1];
      t := t + 1;
      at := at + cmd.size;
    }
    DecodedEnd(code, at, end);
    assert chars[..t] == chars;
  }
}
