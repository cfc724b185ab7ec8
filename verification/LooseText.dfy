/** Other ways of writing a bbgroup file: what is read does not depend on the case of letters. */
module LooseText {
  import opened Wrappers
  import opened Seqs
  import opened Numerals
  import opened TextScan
  import opened GroupStore
  import opened BBGroupText
  import opened RoundTrip

  // ----- letters in either case -----------------------------------------------

  /** The characters that the parser looks for. */
  predicate IsMark(c: char) {
    c in "(),:;-+#\n"
  }

  lemma SameChar(a: char, b: char)
    requires Lower(a) == Lower(b)
    ensures DigitOf(a) == DigitOf(b) && IsSpace(a) == IsSpace(b)
    ensures IsMark(a) || IsMark(b) ==> a == b
  {
    if 'A' <= a <= 'Z' {
      assert 'a' <= Lower(a) <= 'z';
    }
    if 'A' <= b <= 'Z' {
      assert 'a' <= Lower(b) <= 'z';
    }
  }

  lemma SameSlice(a: string, b: string, i: nat, j: nat)
    requires SameIgnoringCase(a, b) && i <= j <= |a|
    ensures SameIgnoringCase(a[i..j], b[i..j]) && SameIgnoringCase(a[i..], b[i..])
    ensures SameIgnoringCase(a[..j], b[..j])
  {
  }

  lemma {:induction false} SkipCase(a: string, b: string)
    requires SameIgnoringCase(a, b)
    ensures SameIgnoringCase(SkipSpaces(a), SkipSpaces(b))
  {
    if a != [] {
      SameChar(a[0], b[0]);
      if IsSpace(a[0]) {
        SkipCase(a[1..], b[1..]);
      }
    }
  }

  lemma {:induction false} FindCase(a: string, b: string, c: char)
    requires SameIgnoringCase(a, b) && IsMark(c)
    ensures Find(a, c) == Find(b, c)
  {
    if a != [] {
      SameChar(a[0], b[0]);
      FindCase(a[1..], b[1..], c);
    }
  }

  ghost predicate AllSame(ps: seq<string>, qs: seq<string>) {
    |ps| == |qs| && forall i :: 0 <= i < |ps| ==> SameIgnoringCase(ps[i], qs[i])
  }

  lemma {:induction false} SplitCase(a: string, b: string, c: char)
    requires SameIgnoringCase(a, b) && IsMark(c)
    ensures AllSame(SplitOn(a, c), SplitOn(b, c))
    decreases |a|
  {
    hide SameIgnoringCase, AllSame;
    FindCase(a, b, c);
    AllSameNone();
    match Find(a, c) {
      case None =>
        AllSameMore(a, b, [], []);
        assert [a] + [] == [a] && [b] + [] == [b];
      case Some(i) =>
        SameLength(a, b);
        SameSlice(a, b, 0, i);
        SameSlice(a, b, i + 1, |a|);
        assert a[..i] == a[0..i] && b[..i] == b[0..i];
        SplitCase(a[i + 1..], b[i + 1..], c);
        AllSameMore(a[..i], b[..i], SplitOn(a[i + 1..], c), SplitOn(b[i + 1..], c));
    }
  }

  lemma AllSameNone()
    ensures AllSame([], [])
  {
  }

  lemma AllSameMore(a: string, b: string, ps: seq<string>, qs: seq<string>)
    requires SameIgnoringCase(a, b) && AllSame(ps, qs)
    ensures AllSame([a] + ps, [b] + qs)
  {
    hide SameIgnoringCase;
  }

  lemma {:induction false} NonEmptyCase(ps: seq<string>, qs: seq<string>)
    requires AllSame(ps, qs)
    ensures AllSame(NonEmpty(ps), NonEmpty(qs))
  {
    if ps != [] {
      assert SameIgnoringCase(ps[0], qs[0]);
      NonEmptyCase(ps[1..], qs[1..]);
    }
  }

  lemma TokensCase(a: string, b: string, c: char)
    requires SameIgnoringCase(a, b) && IsMark(c)
    ensures AllSame(Tokens(a, c), Tokens(b, c))
  {
    SplitCase(a, b, c);
    NonEmptyCase(SplitOn(a, c), SplitOn(b, c));
  }

  // ----- numbers --------------------------------------------------------------

  lemma {:induction false} RunCase(a: string, b: string, base: nat)
    requires SameIgnoringCase(a, b)
    ensures DigitRun(a, base) == DigitRun(b, base)
  {
    if a != [] {
      SameChar(a[0], b[0]);
      RunCase(a[1..], b[1..], base);
    }
  }

  lemma {:induction false} ValueCase(a: string, b: string, base: nat)
    requires SameIgnoringCase(a, b) && AllDigits(a, base) && AllDigits(b, base)
    ensures Value(a, base) == Value(b, base)
  {
    if a != [] {
      var k := |a| - 1;
      SameChar(a[k], b[k]);
      ValueCase(a[..k], b[..k], base);
    }
  }

  /** The same number, and what follows it in either text. */
  ghost predicate SameScan(x: Option<(int, string)>, y: Option<(int, string)>) {
    match (x, y)
    case (None, None) => true
    case (Some((v, s)), Some((w, t))) => v == w && SameIgnoringCase(s, t)
    case _ => false
  }

  function Widen(x: Option<(nat, string)>): Option<(int, string)> {
    match x
    case None => None
    case Some((v, s)) => Some((v, s))
  }

  lemma ScanCase(a: string, b: string, base: nat)
    requires SameIgnoringCase(a, b)
    ensures SameScan(Widen(ScanNat(a, base)), Widen(ScanNat(b, base)))
  {
    RunCase(a, b, base);
    var n := DigitRun(a, base);
    ValueCase(a[..n], b[..n], base);
  }

  lemma ScanIntCase(a: string, b: string)
    requires SameIgnoringCase(a, b)
    ensures SameScan(ScanInt(a), ScanInt(b))
  {
    hide ScanNat, SkipSpaces;
    SkipCase(a, b);
    var s, t := SkipSpaces(a), SkipSpaces(b);
    if s != [] {
      SameChar(s[0], t[0]);
      ScanCase(s[1..], t[1..], 10);
    }
    ScanCase(s, t, 10);
  }

  lemma ScanAddressCase(a: string, b: string)
    requires SameIgnoringCase(a, b)
    ensures SameScan(Widen(ScanAddress(a)), Widen(ScanAddress(b)))
  {
    hide ScanNat, SkipSpaces;
    SkipCase(a, b);
    var s, t := SkipSpaces(a), SkipSpaces(b);
    if s != [] {
      SameChar(s[0], t[0]);
      SkipCase(s[1..], t[1..]);
      ScanCase(SkipSpaces(s[1..]), SkipSpaces(t[1..]), 16);
    }
  }

  lemma ReadNodeCase(a: string, b: string)
    requires SameIgnoringCase(a, b)
    ensures ReadNode(a) == ReadNode(b)
  {
    hide ScanInt, ScanAddress, SameIgnoringCase;
    ScanIntCase(a, b);
    if ScanInt(a).Some? {
      var (s, t) := (ScanInt(a).value.1, ScanInt(b).value.1);
      ScanAddressCase(s, t);
      if ScanAddress(s).Some? {
        ScanAddressCase(ScanAddress(s).value.1, ScanAddress(t).value.1);
      }
    }
  }

  // ----- node sets ------------------------------------------------------------

  lemma {:induction false} LeadingCase(a: string, b: string, c: char)
    requires SameIgnoringCase(a, b) && IsMark(c)
    ensures LeadingRun(a, c) == LeadingRun(b, c)
  {
    if a != [] {
      SameChar(a[0], b[0]);
      LeadingCase(a[1..], b[1..], c);
    }
  }

  lemma ItemsCase(a: string, b: string)
    requires SameIgnoringCase(a, b)
    ensures AllSame(Items(a), Items(b))
  {
    hide Tokens, SameIgnoringCase, LeadingRun, AllSame;
    TokensCase(a, b, ',');
    LeadingCase(a, b, ',');
    SameLength(a, b);
    var n, ps, qs := LeadingRun(a, ','), Tokens(a, ','), Tokens(b, ',');
    SameSlice(a, b, 0, n);
    AllSameParts(ps, qs);
    if ps == [] {
      AllSameMore(a, b, [], []);
      assert [a] + [] == [a] && [b] + [] == [b];
    } else {
      SameConcat(a[..n], b[..n], ps[0], qs[0]);
      AllSameMore(a[..n] + ps[0], b[..n] + qs[0], ps[1..], qs[1..]);
    }
  }

  lemma AllSameParts(ps: seq<string>, qs: seq<string>)
    requires AllSame(ps, qs)
    ensures |ps| == |qs| && AllSame([], [])
    ensures ps != [] ==> SameIgnoringCase(ps[0], qs[0]) && AllSame(ps[1..], qs[1..])
  {
    hide SameIgnoringCase;
  }

  lemma SameConcat(a: string, b: string, c: string, d: string)
    requires SameIgnoringCase(a, b) && SameIgnoringCase(c, d)
    ensures SameIgnoringCase(a + c, b + d)
  {
  }

  lemma {:induction false} ReadItemsCase(ps: seq<string>, qs: seq<string>)
    requires AllSame(ps, qs)
    ensures ReadItems(ps) == ReadItems(qs)
  {
    hide ReadNode, SameIgnoringCase;
    if ps != [] {
      SkipCase(ps[0], qs[0]);
      ReadNodeCase(SkipSpaces(ps[0]), SkipSpaces(qs[0]));
      ReadItemsCase(ps[1..], qs[1..]);
    }
  }

  lemma NextGroupCase(a: string, b: string)
    requires SameIgnoringCase(a, b)
    ensures NextGroup(a).Some? == NextGroup(b).Some?
    ensures NextGroup(a).Some? ==>
              && SameIgnoringCase(NextGroup(a).value.0, NextGroup(b).value.0)
              && SameIgnoringCase(NextGroup(a).value.1, NextGroup(b).value.1)
  {
    hide SameIgnoringCase, SkipSpaces;
    MarkCase(a, b, '(');
    if Find(a, '(').Some? {
      var i := Find(a, '(').value;
      MarkCase(SkipSpaces(a[i + 1..]), SkipSpaces(b[i + 1..]), ')');
    }
  }

  lemma MarkCase(a: string, b: string, c: char)
    requires SameIgnoringCase(a, b) && IsMark(c)
    ensures Find(a, c) == Find(b, c)
    ensures Find(a, c).Some? ==>
              var i := Find(a, c).value;
              && SameIgnoringCase(a[..i], b[..i])
              && SameIgnoringCase(SkipSpaces(a[i + 1..]), SkipSpaces(b[i + 1..]))
  {
    hide SameIgnoringCase, SkipSpaces;
    FindCase(a, b, c);
    SameLength(a, b);
    if Find(a, c).Some? {
      var i := Find(a, c).value;
      SameSlice(a, b, 0, i);
      AfterCase(a, b, i + 1);
    }
  }

  lemma AfterCase(a: string, b: string, i: nat)
    requires SameIgnoringCase(a, b) && i <= |a|
    ensures i <= |b| && SameIgnoringCase(SkipSpaces(a[i..]), SkipSpaces(b[i..]))
  {
    hide SkipSpaces;
    SkipCase(a[i..], b[i..]);
  }

  lemma SameLength(a: string, b: string)
    requires SameIgnoringCase(a, b)
    ensures |a| == |b|
  {
  }

  /** The nodes read from a node set do not depend on the case of its letters. */
  lemma {:induction false} ReadGroupsCase(a: string, b: string)
    requires SameIgnoringCase(a, b)
    ensures ReadGroups(a) == ReadGroups(b)
    decreases |a|
  {
    hide NextGroup, Items, ReadItems, SameIgnoringCase;
    NextGroupCase(a, b);
    if NextGroup(a).Some? {
      var (s, t) := (NextGroup(a).value, NextGroup(b).value);
      ItemsCase(s.0, t.0);
      ReadItemsCase(Items(s.0), Items(t.0));
      ReadGroupsCase(s.1, t.1);
    }
  }

  // ----- addresses in lower case ----------------------------------------------

  function Lowered(s: string): (r: string)
    ensures |r| == |s| && forall i :: 0 <= i < |s| ==> r[i] == Lower(s[i])
  {
    seq(|s|, i requires 0 <= i < |s| => Lower(s[i]))
  }

  lemma LoweredSame(s: string)
    ensures SameIgnoringCase(s, Lowered(s))
  {
  }

  /** A printed number with its letters lowered scans to the same number. */
  lemma {:induction false} ScanLowered(n: nat, base: nat, rest: string)
    requires 2 <= base <= 16 && (rest == [] || !IsDigit(rest[0], base))
    ensures ScanNat(Lowered(Digits(n, base)) + rest, base) == Some((n, rest))
  {
    var a, b := Digits(n, base), Lowered(Digits(n, base));
    DigitsAreDigits(n, base);
    forall i | 0 <= i < |b|
      ensures IsDigit(b[i], base)
    {
      SameChar(a[i], b[i]);
    }
    ValueCase(a, b, base);
    RunOf(b, rest, base);
    assert (b + rest)[..|b|] == b && (b + rest)[|b|..] == rest;
  }

  /** So does a node. */
  lemma ReadLoweredNode(nd: NodeDef)
    ensures ReadNode(Decimal(nd.nid) + " : " + Lowered(Hex(nd.start)) + " : " + Lowered(Hex(nd.end))) == Some(nd)
  {
    var a := Decimal(nd.nid) + " : " + Lowered(Hex(nd.start)) + " : " + Lowered(Hex(nd.end));
    assert SameIgnoringCase(a, NodeText(nd));
    ReadNodeCase(a, NodeText(nd));
    ReadPrintedNode(nd);
  }

  // ----- white space and missing addresses ------------------------------------

  predicate Blank(w: string) {
    forall i :: 0 <= i < |w| ==> IsSpace(w[i])
  }

  /** White space is the six characters of isspace. */
  lemma SpacesAre(c: char)
    ensures IsSpace(c) <==> c as int in {9, 10, 11, 12, 13, 32}
  {
  }

  lemma {:induction false} SkipBlank(w: string, s: string)
    requires Blank(w)
    ensures SkipSpaces(w + s) == SkipSpaces(s)
  {
    if w == [] {
      assert w + s == s;
    } else {
      assert (w + s)[1..] == w[1..] + s;
      SkipBlank(w[1..], s);
    }
  }

  /** A number in base 16, its letters in either case. */
  ghost predicate WritesHex(h: string, n: nat) {
    SameIgnoringCase(h, Digits(n, 16))
  }

  lemma {:induction false} ScanHexCase(h: string, n: nat, rest: string)
    requires WritesHex(h, n) && (rest == [] || !IsDigit(rest[0], 16))
    ensures h != "" && !IsSpace(h[0]) && ScanNat(h + rest, 16) == Some((n, rest))
  {
    var a := Digits(n, 16);
    DigitsAreDigits(n, 16);
    forall i | 0 <= i < |h|
      ensures IsDigit(h[i], 16)
    {
      SameChar(a[i], h[i]);
    }
    ValueCase(a, h, 16);
    RunOf(h, rest, 16);
    assert IsDigit(h[0], 16);
    assert (h + rest)[..|h|] == h && (h + rest)[|h|..] == rest;
  }

  /** An address with any white space around its colon. */
  ghost predicate WritesAddress(s: string, n: nat, rest: string) {
    exists w, gap, h :: Blank(w) && Blank(gap) && WritesHex(h, n) && s == w + (":" + (gap + (h + rest)))
  }

  lemma ReadAddress(s: string, n: nat, rest: string)
    requires WritesAddress(s, n, rest) && (rest == [] || !IsDigit(rest[0], 16))
    ensures ScanAddress(s) == Some((n, rest)) && (s == [] || !IsDigit(s[0], 10))
  {
    hide Blank, WritesHex, ScanNat;
    var w, gap, h :| Blank(w) && Blank(gap) && WritesHex(h, n) && s == w + (":" + (gap + (h + rest)));
    ScanHexCase(h, n, rest);
    SkipBlank(w, ":" + (gap + (h + rest)));
    SkipNone(":" + (gap + (h + rest)));
    assert (":" + (gap + (h + rest)))[1..] == gap + (h + rest);
    SkipBlank(gap, h + rest);
    SkipNone(h + rest);
    assert s[0] == if w == [] then ':' else w[0];
    if w != [] {
      BlankStart(w);
    }
  }

  lemma BlankStart(w: string)
    requires Blank(w) && w != []
    ensures IsSpace(w[0]) && !IsDigit(w[0], 16) && !IsDigit(w[0], 10)
  {
  }

  /** No address follows: no colon comes next, or no digit after it. */
  predicate NoAddress(s: string) {
    && (s == [] || !IsDigit(s[0], 16))
    && var t := SkipSpaces(s);
       t == [] || t[0] != ':' || (var u := SkipSpaces(t[1..]); u == [] || !IsDigit(u[0], 16))
  }

  lemma NoAddressRead(s: string)
    requires NoAddress(s)
    ensures ScanAddress(s) == None && (s == [] || !IsDigit(s[0], 16))
  {
  }

  /** A node with both addresses, with one, and with none: what is missing is 0. */
  lemma ReadLooseNode(nd: NodeDef, s1: string, s2: string, rest: string)
    requires WritesAddress(s1, nd.start, s2) && WritesAddress(s2, nd.end, rest)
    requires rest == [] || !IsDigit(rest[0], 16)
    ensures ReadNode(Decimal(nd.nid) + s1) == Some(nd)
  {
    hide Decimal, WritesAddress;
    ReadAddress(s2, nd.end, rest);
    AddressStart(s2, nd.end, rest);
    ReadAddress(s1, nd.start, s2);
    ScanDecimal(nd.nid, s1);
  }

  lemma AddressStart(s: string, n: nat, rest: string)
    requires WritesAddress(s, n, rest)
    ensures s == [] || !IsDigit(s[0], 16)
  {
    var w, gap, h :| Blank(w) && Blank(gap) && WritesHex(h, n) && s == w + (":" + (gap + (h + rest)));
    assert s[0] == if w == [] then ':' else w[0];
  }

  lemma ReadHalfNode(nid: int, start: nat, s1: string, s2: string)
    requires WritesAddress(s1, start, s2) && NoAddress(s2)
    ensures ReadNode(Decimal(nid) + s1) == Some(NodeDef(nid, start, 0))
  {
    hide Decimal, WritesAddress, NoAddress;
    NoAddressRead(s2);
    ReadAddress(s1, start, s2);
    ScanDecimal(nid, s1);
  }

  lemma ReadBareNode(nid: int, s1: string)
    requires NoAddress(s1)
    ensures ReadNode(Decimal(nid) + s1) == Some(NodeDef(nid, 0, 0))
  {
    hide Decimal, NoAddress;
    NoAddressRead(s1);
    assert s1 == [] || !IsDigit(s1[0], 10);
    ScanDecimal(nid, s1);
  }

  /** Text that starts with no number is no node. */
  lemma NoNode(s: string)
    ensures var t := SkipSpaces(s);
            var u := if t != [] && t[0] in "+-" then t[1..] else t;
            ReadNode(s) == None <==> u == [] || !('0' <= u[0] <= '9')
  {
    hide SkipSpaces, ScanAddress;
    var t := SkipSpaces(s);
    var u := if t != [] && t[0] in "+-" then t[1..] else t;
    assert t != [] ==> (t[0] in "+-" <==> t[0] == '-' || t[0] == '+');
    NoNumber(u);
  }

  lemma NoNumber(u: string)
    ensures ScanNat(u, 10) == None <==> u == [] || !('0' <= u[0] <= '9')
  {
  }

  /** A number may carry a plus sign. */
  lemma ScanPlus(n: nat, rest: string)
    requires rest == [] || !IsDigit(rest[0], 10)
    ensures ScanInt("+" + Digits(n, 10) + rest) == Some((n, rest))
  {
    hide ScanNat, Digits;
    var t := Digits(n, 10) + rest;
    assert "+" + Digits(n, 10) + rest == "+" + t;
    SkipNone("+" + t);
    assert ("+" + t)[1..] == t;
    ScanPrinted(n, 10, rest);
  }

  // ----- groups ---------------------------------------------------------------

  /** What stands between parentheses is one group, whatever stands in front of them. */
  lemma ReadOneGroup(pre: string, w: string, text: string, gap: string, post: string)
    requires '(' !in pre && Blank(w) && ')' !in text && Blank(gap)
    requires (text == [] || !IsSpace(text[0])) && (post == [] || !IsSpace(post[0]))
    ensures ReadGroups(pre + "(" + (w + (text + ")" + (gap + post)))) == [ReadItems(Items(text))] + ReadGroups(post)
  {
    hide ReadItems, Items, Blank;
    var t := text + ")" + (gap + post);
    FindAfter(pre, '(', w + t);
    AroundMark(pre, '(', w + t);
    SkipBlank(w, t);
    assert t[0] == if text != "" then text[0] else ')';
    SkipNone(t);
    FindAfter(text, ')', gap + post);
    AroundMark(text, ')', gap + post);
    SkipBlank(gap, post);
    SkipNone(post);
  }

  /** The nodes of a group stand between commas; a comma in front spoils the first. */
  lemma {:induction false} ReadCommas(s: string)
    ensures var toks := Tokens(s, ',');
            ReadItems(Items(s)) ==
            ReadItems(if s != [] && s[0] == ',' && toks != [] then toks[1..] else toks)
  {
    hide Tokens, ReadNode;
    var toks := Tokens(s, ',');
    if toks == [] {
      NoTokens(s);
    } else if s[..LeadingRun(s, ',')] == "" {
      assert "" + toks[0] == toks[0];
      assert Items(s) == toks;
    } else {
      var item := s[..LeadingRun(s, ',')] + toks[0];
      assert item[0] == ',';
      SkipNone(item);
      NoNode(item);
      assert Items(s)[1..] == toks[1..];
    }
  }

  lemma {:induction false} NoTokens(s: string)
    requires Tokens(s, ',') == []
    ensures ReadItems([s]) == []
  {
    hide Tokens, ReadNode;
    if s != [] && s[0] != ',' {
      TokensStart(s);
      assert false;
    } else {
      SkipNone(s);
      NoNode(s);
      assert [s][1..] == [];
    }
  }

  lemma TokensStart(s: string)
    requires s != [] && s[0] != ','
    ensures Tokens(s, ',') != []
  {
    var p := SplitOn(s, ',')[0];
    assert p != "" by {
      match Find(s, ',') {
        case None =>
        case Some(i) => assert s[i] == ',';
      }
    }
    NonEmptyIn(SplitOn(s, ','), p);
  }

  // ----- lines ----------------------------------------------------------------

  /** A field of a line: a key and a value, with white space in front of either. */
  datatype Field = Field(pre: string, key: string, gap: string, val: string)

  ghost predicate WellFormed(f: Field) {
    && Blank(f.pre) && Blank(f.gap) && ';' !in f.pre + f.key + f.gap + f.val
    && ':' !in f.key && (f.key == "" || !IsSpace(f.key[0])) && (f.val == "" || !IsSpace(f.val[0]))
  }

  function FieldText(f: Field): string {
    f.pre + f.key + ":" + (f.gap + f.val)
  }

  function FieldsText(fs: seq<Field>): string {
    if fs == [] then "" else FieldText(fs[0]) + ";" + FieldsText(fs[1..])
  }

  /** The last value under a key, in either case of letters; the default without one. */
  ghost function LastValue(fs: seq<Field>, key: string, default: string): string {
    if fs == [] then default
    else LastValue(fs[1..], key, if SameIgnoringCase(fs[0].key, key) then fs[0].val else default)
  }

  /** The groups of all node sets, in order. */
  ghost function NodesetsOf(fs: seq<Field>): seq<seq<NodeDef>> {
    if fs == [] then []
    else (if SameIgnoringCase(fs[0].key, "NODESET") then ReadGroups(fs[0].val) else []) + NodesetsOf(fs[1..])
  }

  ghost predicate ReadsAs(sg0: Super, fs: seq<Field>, sg: Super) {
    && sg.id == LastValue(fs, "ID", sg0.id)
    && sg.name == LastValue(fs, "GROUPNAME", sg0.name)
    && sg.groups == sg0.groups + NodesetsOf(fs)
  }

  lemma ReadField(sg: Super, f: Field)
    requires WellFormed(f)
    ensures ReadToken(sg, FieldText(f)) == SetField(sg, f.key, f.val)
  {
    hide SetField;
    var a := f.pre + f.key;
    BlankAvoids(f.pre, ':');
    FindAfter(a, ':', f.gap + f.val);
    AroundMark(a, ':', f.gap + f.val);
    SkipBlank(f.pre, f.key);
    SkipNone(f.key);
    SkipBlank(f.gap, f.val);
    SkipNone(f.val);
  }

  lemma BlankAvoids(w: string, c: char)
    requires Blank(w) && !IsSpace(c)
    ensures c !in w
  {
  }

  lemma SetOneField(sg: Super, key: string, val: string)
    ensures var sg' := SetField(sg, key, val);
            && sg'.id == (if SameIgnoringCase(key, "ID") then val else sg.id)
            && sg'.name == (if SameIgnoringCase(key, "GROUPNAME") then val else sg.name)
            && sg'.groups == sg.groups + (if SameIgnoringCase(key, "NODESET") then ReadGroups(val) else [])
  {
    hide ReadGroups;
  }

  lemma {:induction false} ReadFieldsFrom(sg: Super, fs: seq<Field>)
    requires forall i :: 0 <= i < |fs| ==> WellFormed(fs[i])
    ensures ReadsAs(sg, fs, ReadTokens(sg, Tokens(FieldsText(fs), ';')))
    decreases fs
  {
    hide FieldText, WellFormed, SameIgnoringCase, ReadToken, Tokens, SetField, ReadGroups;
    if fs == [] {
      TokensAlone("", ';');
    } else {
      var f := fs[0];
      FieldAvoids(f);
      ReadMore(sg, FieldText(f), FieldsText(fs[1..]));
      ReadField(sg, f);
      SetOneField(sg, f.key, f.val);
      var sg' := SetField(sg, f.key, f.val);
      ReadFieldsFrom(sg', fs[1..]);
      ConcatAssoc(sg.groups, if SameIgnoringCase(f.key, "NODESET") then ReadGroups(f.val) else [], NodesetsOf(fs[1..]));
    }
  }

  lemma FieldAvoids(f: Field)
    requires WellFormed(f)
    ensures ';' !in FieldText(f) && FieldText(f) != ""
  {
  }

  /** Fields in any order: the last id and the last name count, and all node sets. */
  lemma ReadFields(fs: seq<Field>)
    requires forall i :: 0 <= i < |fs| ==> WellFormed(fs[i])
    ensures ReadsAs(EMPTY, fs, ReadLine(FieldsText(fs)))
  {
    ReadFieldsFrom(EMPTY, fs);
  }

  // ----- the file -------------------------------------------------------------

  /** The section that a line belongs to is named by the last header above it. */
  ghost function SectionAt(lines: seq<string>, i: nat): Section
    requires i <= |lines|
  {
    if i == 0 then PathInfo
    else if !IsHeader(lines[i - 1]) then SectionAt(lines, i - 1)
    else if SkipSpaces(lines[i - 1]) == "--PATHINFO" then PathInfo
    else if SkipSpaces(lines[i - 1]) == "--SIMILARINFO" then SimilarInfo
    else Unknown
  }

  /** The lines at the given places, and no others, are the super groups of the section. */
  ghost predicate LinesOf(lines: seq<string>, cur: Section, at: seq<nat>, sgl: seq<Super>) {
    && |at| == |sgl| && (forall i, j :: 0 <= i < j < |at| ==> at[i] < at[j])
    && (forall k :: 0 <= k < |at| ==>
          at[k] < |lines| && IsSuperLine(lines[at[k]]) && SectionAt(lines, at[k]) == cur &&
          sgl[k] == ReadLine(SkipSpaces(lines[at[k]])))
    && (forall i :: 0 <= i < |lines| && IsSuperLine(lines[i]) && SectionAt(lines, i) == cur ==> i in at)
  }

  lemma StepLine(st: Reading, line: string)
    ensures var st' := Step(st, line);
            && st'.cur == (if !IsHeader(line) then st.cur
                           else if SkipSpaces(line) == "--PATHINFO" then PathInfo
                           else if SkipSpaces(line) == "--SIMILARINFO" then SimilarInfo
                           else Unknown)
            && st'.path == st.path + (if IsSuperLine(line) && st.cur == PathInfo then [ReadLine(SkipSpaces(line))] else [])
            && st'.similar == st.similar + (if IsSuperLine(line) && st.cur == SimilarInfo then [ReadLine(SkipSpaces(line))] else [])
  {
    hide ReadLine, SkipSpaces;
    var s := SkipSpaces(line);
    if IsHeader(line) {
      assert s == "--" + s[2..];
      assert "--PATHINFO"[2..] == "PATHINFO" && "--SIMILARINFO"[2..] == "SIMILARINFO";
    }
  }

  lemma {:induction false} SectionPrefix(lines: seq<string>, more: seq<string>, i: nat)
    requires i <= |lines|
    ensures SectionAt(lines + more, i) == SectionAt(lines, i)
  {
    if i > 0 {
      assert (lines + more)[i - 1] == lines[i - 1];
      SectionPrefix(lines, more, i - 1);
    }
  }

  lemma {:induction false} StepsSnoc(st: Reading, lines: seq<string>, line: string)
    ensures Steps(st, lines + [line]) == Step(Steps(st, lines), line)
    decreases lines
  {
    hide Step;
    if lines == [] {
      assert lines + [line] == [line] && [line][1..] == [];
    } else {
      assert (lines + [line])[1..] == lines[1..] + [line];
      StepsSnoc(Step(st, lines[0]), lines[1..], line);
    }
  }

  lemma {:induction false} LinesMore(
    lines: seq<string>, line: string, cur: Section, at: seq<nat>, sgl: seq<Super>) returns (at': seq<nat>)
    requires LinesOf(lines, cur, at, sgl)
    ensures var here := IsSuperLine(line) && SectionAt(lines, |lines|) == cur;
            LinesOf(lines + [line], cur, at', sgl + if here then [ReadLine(SkipSpaces(line))] else [])
  {
    hide ReadLine, SkipSpaces, IsSuperLine, SectionAt;
    var all := lines + [line];
    forall i | 0 <= i <= |lines|
      ensures SectionAt(all, i) == SectionAt(lines, i)
    {
      SectionPrefix(lines, [line], i);
    }
    if IsSuperLine(line) && SectionAt(lines, |lines|) == cur {
      at' := at + [|lines|];
    } else {
      at' := at;
      assert sgl + [] == sgl;
    }
  }

  lemma {:induction false} StepsLines(lines: seq<string>) returns (p: seq<nat>, q: seq<nat>)
    ensures var r := Steps(START, lines);
            && LinesOf(lines, PathInfo, p, r.path) && LinesOf(lines, SimilarInfo, q, r.similar)
            && r.cur == SectionAt(lines, |lines|)
  {
    hide Step, LinesOf, IsSuperLine, ReadLine, SkipSpaces;
    if lines == [] {
      p, q := [], [];
      NoLines();
    } else {
      var k := |lines| - 1;
      var init, line := lines[..k], lines[k];
      p, q := StepsLines(init);
      StepsSnoc(START, init, line);
      assert init + [line] == lines;
      StepLine(Steps(START, init), line);
      SectionPrefix(init, [line], k);
      p := LinesMore(init, line, PathInfo, p, Steps(START, init).path);
      q := LinesMore(init, line, SimilarInfo, q, Steps(START, init).similar);
    }
  }

  lemma NoLines()
    ensures LinesOf([], PathInfo, [], []) && LinesOf([], SimilarInfo, [], [])
  {
  }

  /** A file is read line by line: each list has the super groups of its sections, in order. */
  lemma ReadFileLines(text: string) returns (p: seq<nat>, q: seq<nat>)
    ensures LinesOf(SplitOn(text, '\n'), PathInfo, p, ReadFile(text).path)
    ensures LinesOf(SplitOn(text, '\n'), SimilarInfo, q, ReadFile(text).similar)
  {
    hide LinesOf, Steps;
    p, q := StepsLines(SplitOn(text, '\n'));
  }

  // ----- files in lower case --------------------------------------------------

  /** The line of a super group, with the addresses in lower case. */
  function LoweredLine(sg: Super): string {
    IdText(sg.id) + NameText(sg.name) +
    if sg.groups == [] then "" else "NODESET:" + Lowered(GroupsText(sg.groups))
  }

  function LoweredText(sgl: seq<Super>): string {
    if sgl == [] then "" else LoweredLine(sgl[0]) + "\n" + LoweredText(sgl[1..])
  }

  function LoweredFile(path: seq<Super>, similar: seq<Super>): string {
    "--PATHINFO\n" + LoweredText(path) + "--SIMILARINFO\n" + LoweredText(similar)
  }

  lemma {:induction false} LoweredGroups(gs: seq<seq<NodeDef>>)
    requires gs != []
    ensures var low := Lowered(GroupsText(gs));
            ReadGroups(low) == gs && low != "" && low[0] == '(' && ';' !in low && '\n' !in low
  {
    hide GroupsText, ReadGroups, Lowered, Only, SameIgnoringCase;
    var text, low := GroupsText(gs), Lowered(GroupsText(gs));
    LoweredSame(text);
    ReadGroupsCase(text, low);
    ReadPrintedGroups("", gs);
    assert "" + text == text;
    GroupsStart(gs);
    LoweredMark(text, '(', 0);
    GroupsTextChars(gs, ",()");
    OnlyAvoids(text, ",()", ';');
    OnlyAvoids(text, ",()", '\n');
    LoweredAvoids(text, ';');
    LoweredAvoids(text, '\n');
  }

  lemma LoweredMark(s: string, c: char, i: nat)
    requires IsMark(c) && i < |s|
    ensures Lowered(s)[i] == c <==> s[i] == c
  {
    SameChar(s[i], Lowered(s)[i]);
  }

  lemma LoweredAvoids(s: string, c: char)
    requires IsMark(c) && c !in s
    ensures c !in Lowered(s)
  {
    forall i | 0 <= i < |s|
      ensures Lowered(s)[i] != c
    {
      LoweredMark(s, c, i);
    }
  }

  lemma ReadLoweredNodeset(sg: Super, gs: seq<seq<NodeDef>>)
    requires sg.groups == [] && gs != []
    ensures ReadTokens(sg, Tokens("NODESET:" + Lowered(GroupsText(gs)), ';')) == sg.(groups := gs)
  {
    hide Tokens, ReadToken, GroupsText, ReadGroups, Lowered;
    var low := Lowered(GroupsText(gs));
    var a := "NODESET" + ":" + low;
    assert "NODESET:" + low == a;
    LoweredGroups(gs);
    TokensAlone(a, ';');
    FieldToken(sg, "NODESET", low);
    assert [] + gs == gs && [a][1..] == [];
  }

  /** A super group is read back from its line in lower case too. */
  lemma ReadLoweredLine(sg: Super)
    requires CleanTexts(sg)
    ensures ReadLine(LoweredLine(sg)) == sg
  {
    if sg.groups == [] {
      assert LoweredLine(sg) == SuperText(sg);
      ReadPrintedLine(sg);
    } else {
      hide Tokens, ReadTokens, IdText, NameText, GroupsText, CleanText, Lowered;
      var nodes := "NODESET:" + Lowered(GroupsText(sg.groups));
      assert LoweredLine(sg) == IdText(sg.id) + (NameText(sg.name) + nodes);
      ReadIdText(EMPTY, sg.id, NameText(sg.name) + nodes);
      ReadNameText(EMPTY.(id := sg.id), sg.name, nodes);
      ReadLoweredNodeset(Super(sg.id, sg.name, []), sg.groups);
    }
  }

  lemma LoweredLineChars(sg: Super)
    requires CleanTexts(sg)
    ensures '\n' !in LoweredLine(sg) && (LoweredLine(sg) == "" <==> sg == EMPTY)
    ensures LoweredLine(sg) != "" ==> LoweredLine(sg)[0] in "IGN"
  {
    hide GroupsText, Lowered;
    if sg.groups != [] {
      LoweredGroups(sg.groups);
    }
    if sg.id != "" {
      assert LoweredLine(sg)[0] == 'I';
    } else if sg.name != "" {
      assert LoweredLine(sg)[0] == 'G';
    } else if sg.groups != [] {
      assert LoweredLine(sg)[0] == 'N';
    }
  }

  lemma StepLowered(st: Reading, sg: Super)
    requires CleanTexts(sg) && st.cur != Unknown
    ensures Step(st, LoweredLine(sg)) == if sg == EMPTY then st else AddSuper(st, sg)
  {
    hide LoweredLine, ReadLine, CleanTexts;
    LoweredLineChars(sg);
    SkipNone(LoweredLine(sg));
    ReadLoweredLine(sg);
  }

  lemma {:induction false} ReadLoweredSection(st: Reading, sgl: seq<Super>, tail: string)
    requires AllCleanTexts(sgl) && st.cur != Unknown
    ensures Steps(st, SplitOn(LoweredText(sgl) + tail, '\n')) ==
            Steps(AddSupers(st, WithoutEmpty(sgl)), SplitOn(tail, '\n'))
    decreases sgl
  {
    hide Step, LoweredLine, SplitOn, CleanTexts;
    if sgl == [] {
      assert LoweredText(sgl) + tail == tail;
      assert AddSupers(st, []) == st;
    } else {
      var line, rest := LoweredLine(sgl[0]), LoweredText(sgl[1..]) + tail;
      assert LoweredText(sgl) + tail == line + "\n" + rest;
      LoweredLineChars(sgl[0]);
      SplitAfter(line, '\n', rest);
      var lines := [line] + SplitOn(rest, '\n');
      assert lines[1..] == SplitOn(rest, '\n');
      StepLowered(st, sgl[0]);
      ReadLoweredSection(Step(st, line), sgl[1..], tail);
      AddSupersStep(st, sgl);
    }
  }

  /** A file with its addresses in lower case is read as the printed one. */
  lemma {:induction false} ReadLoweredFile(path: seq<Super>, similar: seq<Super>)
    requires AllCleanTexts(path) && AllCleanTexts(similar)
    ensures ReadFile(LoweredFile(path, similar)) ==
            Reading(WithoutEmpty(path), WithoutEmpty(similar), SimilarInfo)
  {
    hide Steps, SplitOn, LoweredText, Step;
    var second := LoweredText(similar) + "";
    var rest := "--" + "SIMILARINFO" + "\n" + second;
    FilePieces(LoweredText(path), LoweredText(similar), "");
    assert LoweredFile(path, similar) + "" == LoweredFile(path, similar);
    ReadHeader(START, "PATHINFO", LoweredText(path) + rest);
    ReadLoweredSection(START, path, rest);
    var st := Reading(WithoutEmpty(path), [], PathInfo);
    assert AddSupers(START, WithoutEmpty(path)) == st;
    ReadHeader(st, "SIMILARINFO", second);
    var st' := st.(cur := SimilarInfo);
    ReadLoweredSection(st', similar, "");
    assert AddSupers(st', WithoutEmpty(similar)) == st'.(similar := WithoutEmpty(similar));
    NothingLeft(st'.(similar := WithoutEmpty(similar)));
  }

  // ----- one file, in characters ----------------------------------------------

  const NODE1 := NodeDef(-12, 0xABC, 0xDEF)
  const NODE2 := NodeDef(7, 5, 6)
  const EXAMPLE := Super("x", "y", [[NODE1, NODE2], []])

  lemma Unfold(n: nat, base: nat)
    requires 2 <= base <= 16 && base <= n
    ensures Digits(n, base) == Digits(n / base, base) + [DIGITS[n % base]]
  {
  }

  lemma ExampleNumbers()
    ensures Digits(0xABC, 16) == "ABC" && Digits(0xDEF, 16) == "DEF"
    ensures Digits(12, 10) == "12" && Digits(7, 10) == "7" && Digits(5, 16) == "5" && Digits(6, 16) == "6"
  {
    assert Digits(7, 10) == "7" && Digits(5, 16) == "5" && Digits(6, 16) == "6";
    assert Digits(0xA, 16) == "A" && Digits(0xD, 16) == "D" && Digits(1, 10) == "1";
    hide Digits;
    Unfold(0xAB, 16);
    Unfold(0xABC, 16);
    Unfold(0xDE, 16);
    Unfold(0xDEF, 16);
    Unfold(12, 10);
  }

  lemma ExampleNodes()
    ensures NodeText(NODE1) == "-12 : ABC : DEF" && NodeText(NODE2) == "7 : 5 : 6"
  {
    hide Digits;
    ExampleNumbers();
    assert Decimal(-12) == "-" + "12";
  }

  lemma ExampleGroups()
    ensures GroupsText(EXAMPLE.groups) == "(-12 : ABC : DEF, 7 : 5 : 6), ()"
  {
    hide NodeText;
    ExampleNodes();
    var gs := EXAMPLE.groups;
    assert gs[0][1..] == [NODE2];
    assert NodesText(gs[0]) == "-12 : ABC : DEF" + ", " + "7 : 5 : 6";
    assert gs[1..] == [[]];
    assert GroupsText([[]]) == "(" + "" + ")";
    assert GroupsText(gs) == "(" + NodesText(gs[0]) + "), " + "()";
  }

  const NODES := "(-12 : ABC : DEF, 7 : 5 : 6), ()"
  const LOWERED := "(-12 : abc : def, 7 : 5 : 6), ()"

  /** The file of the example, with the given text for its groups. */
  function ExampleFile(groups: string): string {
    "--PATHINFO\n" +
    (("ID:" + "x" + ";") + ("GROUPNAME:" + "y" + ";") + ("NODESET:" + groups) + "\n" + "") +
    "--SIMILARINFO\n" + ""
  }

  /** What is printed, character by character. */
  lemma PrintedExample()
    ensures FileText([EXAMPLE], []) == ExampleFile(NODES)
  {
    hide GroupsText;
    ExampleGroups();
    assert [EXAMPLE][1..] == [];
  }

  lemma LoweredCharacters()
    ensures Lowered(NODES) == LOWERED
  {
    hide Lowered;
  }

  lemma LoweredExample()
    ensures LoweredFile([EXAMPLE], []) == ExampleFile(LOWERED)
  {
    hide GroupsText, Lowered;
    ExampleGroups();
    LoweredCharacters();
    assert [EXAMPLE][1..] == [];
  }

  /** The same in lower case is read back. */
  lemma ReadExample()
    ensures ReadFile(ExampleFile(LOWERED)) == Reading([EXAMPLE], [], SimilarInfo)
  {
    hide ReadFile, LoweredFile, ExampleFile;
    LoweredExample();
    ReadLoweredFile([EXAMPLE], []);
    assert [EXAMPLE][1..] == [];
  }
}
