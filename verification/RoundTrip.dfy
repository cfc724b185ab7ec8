/** Printing and parsing a bbgroup file undo each other. */
module RoundTrip {
  import opened Wrappers
  import opened Seqs
  import opened Numerals
  import opened TextScan
  import opened GroupStore
  import opened BBGroupText

  // ----- characters of the printed text ---------------------------------------

  predicate NodeChar(c: char) {
    IsDigit(c, 16) || c == '-' || c == ':' || c == ' '
  }

  ghost predicate Only(s: string, extra: string) {
    forall i :: 0 <= i < |s| ==> NodeChar(s[i]) || s[i] in extra
  }

  lemma OnlyAvoids(s: string, extra: string, c: char)
    requires Only(s, extra) && !NodeChar(c) && c !in extra
    ensures c !in s
  {
  }

  lemma HexChars(n: nat, extra: string)
    ensures Only(Hex(n), extra) && Hex(n) != "" && IsDigit(Hex(n)[0], 16)
  {
    DigitsAreDigits(n, 16);
  }

  lemma DecimalChars(n: int, extra: string)
    ensures Only(Decimal(n), extra) && Decimal(n) != ""
    ensures !IsSpace(Decimal(n)[0])
  {
    DigitsAreDigits(if n < 0 then -n else n, 10);
  }

  lemma NodeTextChars(nd: NodeDef, extra: string)
    ensures Only(NodeText(nd), extra) && NodeText(nd) != "" && !IsSpace(NodeText(nd)[0])
  {
    hide Decimal, Hex;
    DecimalChars(nd.nid, extra);
    HexChars(nd.start, extra);
    HexChars(nd.end, extra);
    assert NodeText(nd)[0] == Decimal(nd.nid)[0];
  }

  lemma {:induction false} NodesTextChars(ns: seq<NodeDef>, extra: string)
    requires ',' in extra
    ensures Only(NodesText(ns), extra)
    ensures NodesText(ns) == "" || !IsSpace(NodesText(ns)[0])
    ensures ns != [] ==> NodesText(ns) != "" && NodesText(ns)[0] != ','
  {
    hide NodeText;
    if ns != [] {
      NodeTextChars(ns[0], extra);
      NodeTextChars(ns[0], "");
      if |ns| > 1 {
        NodesTextChars(ns[1..], extra);
      }
    }
  }

  lemma {:induction false} GroupsTextChars(gs: seq<seq<NodeDef>>, extra: string)
    requires ',' in extra && '(' in extra && ')' in extra
    ensures Only(GroupsText(gs), extra)
  {
    hide NodesText;
    if gs != [] {
      NodesTextChars(gs[0], extra);
      if |gs| > 1 {
        GroupsTextChars(gs[1..], extra);
      }
    }
  }

  // ----- nodes ----------------------------------------------------------------

  lemma SkipNone(s: string)
    requires s == [] || !IsSpace(s[0])
    ensures SkipSpaces(s) == s
  {
  }

  lemma SkipOne(s: string)
    requires s == [] || !IsSpace(s[0])
    ensures SkipSpaces(" " + s) == s
  {
    assert (" " + s)[1..] == s;
  }

  lemma ScanDecimal(n: int, rest: string)
    requires rest == [] || !IsDigit(rest[0], 10)
    ensures ScanInt(Decimal(n) + rest) == Some((n, rest))
  {
    hide ScanNat, Digits;
    if n < 0 {
      assert Decimal(n) + rest == "-" + (Digits(-n, 10) + rest);
      ScanSigned(Digits(-n, 10) + rest);
      ScanPrinted(-n, 10, rest);
    } else {
      FirstDigit(n);
      ScanUnsigned(Digits(n, 10) + rest);
      ScanPrinted(n, 10, rest);
    }
  }

  lemma FirstDigit(n: nat)
    ensures '0' <= Digits(n, 10)[0] <= '9'
  {
    DigitsAreDigits(n, 10);
    assert IsDigit(Digits(n, 10)[0], 10);
  }

  lemma ScanSigned(t: string)
    ensures ScanInt("-" + t) ==
              match ScanNat(t, 10)
              case None => None
              case Some((v, rest)) => Some((-1 * v, rest))
  {
    hide ScanNat;
    var s := "-" + t;
    SkipNone(s);
    assert s[1..] == t;
  }

  lemma ScanUnsigned(t: string)
    requires t != [] && '0' <= t[0] <= '9'
    ensures ScanInt(t) ==
              match ScanNat(t, 10)
              case None => None
              case Some((v, rest)) => Some((1 * v, rest))
  {
    hide ScanNat;
    SkipNone(t);
  }

  lemma ScanHex(n: nat, rest: string)
    requires rest == [] || !IsDigit(rest[0], 16)
    ensures ScanAddress(" : " + Hex(n) + rest) == Some((n, rest))
  {
    var s := Hex(n) + rest;
    HexChars(n, "");
    assert s[0] == Hex(n)[0];
    assert " : " + Hex(n) + rest == " " + (": " + s);
    SkipOne(": " + s);
    assert (": " + s)[1..] == " " + s;
    SkipOne(s);
    ScanPrinted(n, 16, rest);
  }

  lemma ReadPrintedNode(nd: NodeDef)
    ensures ReadNode(NodeText(nd)) == Some(nd)
  {
    hide Decimal, Hex;
    var tail := " : " + Hex(nd.end);
    var rest := " : " + Hex(nd.start) + tail;
    assert NodeText(nd) == Decimal(nd.nid) + rest;
    ScanDecimal(nd.nid, rest);
    ScanHex(nd.start, tail);
    assert tail == tail + "";
    ScanHex(nd.end, "");
  }

  /** The tokens of a printed group after its first node. */
  function TailItems(ns: seq<NodeDef>): seq<string> {
    if ns == [] then [] else [" " + NodeText(ns[0])] + TailItems(ns[1..])
  }

  lemma {:induction false} TailTokens(ns: seq<NodeDef>)
    requires ns != []
    ensures Tokens(" " + NodesText(ns), ',') == TailItems(ns)
  {
    hide NodeText, Tokens;
    var a := " " + NodeText(ns[0]);
    NodeTextChars(ns[0], "");
    OnlyAvoids(a, "", ',');
    if |ns| == 1 {
      TokensAlone(a, ',');
      assert ns[1..] == [];
    } else {
      var b := " " + NodesText(ns[1..]);
      CommaSpace(NodeText(ns[0]), NodesText(ns[1..]));
      ConcatAssoc(" ", NodeText(ns[0]), ",");
      ConcatAssoc(" ", NodeText(ns[0]) + ",", b);
      assert " " + NodesText(ns) == a + "," + b;
      TokensAfter(a, ',', b);
      TailTokens(ns[1..]);
    }
  }

  lemma {:induction false} ReadTail(ns: seq<NodeDef>)
    ensures ReadItems(TailItems(ns)) == ns
  {
    hide NodeText, ReadNode;
    if ns != [] {
      NodeTextChars(ns[0], "");
      SkipOne(NodeText(ns[0]));
      ReadPrintedNode(ns[0]);
      ReadTail(ns[1..]);
      assert TailItems(ns)[1..] == TailItems(ns[1..]);
    }
  }

  lemma PrintedItems(ns: seq<NodeDef>)
    requires ns != []
    ensures Items(NodesText(ns)) == [NodeText(ns[0])] + TailItems(ns[1..])
  {
    hide NodeText, Tokens;
    var a := NodeText(ns[0]);
    NodeTextChars(ns[0], "");
    NodesTextChars(ns, ",");
    PrintedTokens(ns);
    hide NodesText, TailItems;
    var toks := Tokens(NodesText(ns), ',');
    assert LeadingRun(NodesText(ns), ',') == 0;
    assert NodesText(ns)[..0] + toks[0] == a;
    assert toks[1..] == TailItems(ns[1..]);
  }

  lemma PrintedTokens(ns: seq<NodeDef>)
    requires ns != []
    ensures Tokens(NodesText(ns), ',') == [NodeText(ns[0])] + TailItems(ns[1..])
  {
    hide NodeText, Tokens;
    var a := NodeText(ns[0]);
    NodeTextChars(ns[0], "");
    OnlyAvoids(a, "", ',');
    if |ns| == 1 {
      TokensAlone(a, ',');
      assert [a] + [] == [a];
    } else {
      CommaSpace(a, NodesText(ns[1..]));
      TokensAfter(a, ',', " " + NodesText(ns[1..]));
      TailTokens(ns[1..]);
    }
  }

  lemma CommaSpace(a: string, rest: string)
    ensures a + ", " + rest == a + "," + (" " + rest)
  {
    assert ", " == "," + " ";
    ConcatAssoc(a, ",", " ");
    ConcatAssoc(a + ",", " ", rest);
  }

  lemma {:induction false} ReadPrintedNodes(ns: seq<NodeDef>)
    ensures ReadItems(Items(NodesText(ns))) == ns
  {
    if ns == [] {
      TokensAlone("", ',');
      assert ReadNode(SkipSpaces("")) == None;
      assert Items("") == [""];
      assert [""][1..] == [];
    } else {
      hide NodeText, ReadNode, Items;
      PrintedItems(ns);
      NodeTextChars(ns[0], "");
      SkipNone(NodeText(ns[0]));
      ReadPrintedNode(ns[0]);
      ReadTail(ns[1..]);
      var items := [NodeText(ns[0])] + TailItems(ns[1..]);
      assert items[1..] == TailItems(ns[1..]);
    }
  }

  // ----- groups ---------------------------------------------------------------

  lemma NextPrintedGroup(pre: string, ns: seq<NodeDef>, post: string)
    requires '(' !in pre && (post == [] || !IsSpace(post[0]))
    ensures NextGroup(pre + "(" + NodesText(ns) + ")" + post) == Some((NodesText(ns), post))
  {
    hide NodesText;
    var text := NodesText(ns);
    NodesTextChars(ns, ",");
    OnlyAvoids(text, ",", ')');
    var t := text + ")" + post;
    ConcatAssoc(pre + "(", text, ")");
    ConcatAssoc(pre + "(", text + ")", post);
    FindAfter(pre, '(', t);
    AroundMark(pre, '(', t);
    assert t[0] == if text != "" then text[0] else ')';
    SkipNone(t);
    FindAfter(text, ')', post);
    AroundMark(text, ')', post);
    SkipNone(post);
  }

  lemma {:induction false} ReadPrintedGroups(pre: string, gs: seq<seq<NodeDef>>)
    requires pre == "" || pre == ", "
    ensures ReadGroups(pre + GroupsText(gs)) == gs
    decreases gs
  {
    hide NodesText, NextGroup, Items, ReadItems;
    if gs == [] {
      assert pre + "" == pre;
      NoGroup(pre);
    } else {
      ReadPrintedNodes(gs[0]);
      var post := if |gs| == 1 then "" else ", " + GroupsText(gs[1..]);
      PrintedGroups(pre, gs);
      NextPrintedGroup(pre, gs[0], post);
      hide GroupsText;
      if |gs| == 1 {
        NoGroup("");
      } else {
        ReadPrintedGroups(", ", gs[1..]);
      }
    }
  }

  lemma PrintedGroups(pre: string, gs: seq<seq<NodeDef>>)
    requires gs != []
    ensures var post := if |gs| == 1 then "" else ", " + GroupsText(gs[1..]);
            pre + GroupsText(gs) == pre + "(" + NodesText(gs[0]) + ")" + post
  {
    hide NodesText;
    var text := NodesText(gs[0]);
    if |gs| == 1 {
      assert pre + ("(" + text + ")") == pre + "(" + text + ")" + "";
    } else {
      Regroup(pre, text, GroupsText(gs[1..]));
    }
  }

  lemma Regroup(pre: string, text: string, rest: string)
    ensures pre + ("(" + text + "), " + rest) == pre + "(" + text + ")" + (", " + rest)
  {
    assert "), " == ")" + ", ";
    ConcatAssoc("(" + text, ")", ", ");
    ConcatAssoc("(" + text + ")", ", ", rest);
    ConcatAssoc(pre, "(" + text + ")", ", " + rest);
    ConcatAssoc(pre, "(" + text, ")");
    ConcatAssoc(pre, "(", text);
  }

  lemma NoGroup(s: string)
    requires '(' !in s
    ensures NextGroup(s) == None
  {
  }

  // ----- lines ----------------------------------------------------------------

  /** A text that the parser can give back: no ';', no line end, no space in front. */
  predicate CleanText(s: string) {
    ';' !in s && '\n' !in s && (s == "" || !IsSpace(s[0]))
  }

  predicate CleanTexts(sg: Super) {
    CleanText(sg.id) && CleanText(sg.name)
  }

  lemma KeysDiffer()
    ensures SameIgnoringCase("ID", "ID") && SameIgnoringCase("GROUPNAME", "GROUPNAME")
    ensures SameIgnoringCase("NODESET", "NODESET") && !SameIgnoringCase("GROUPNAME", "ID")
    ensures !SameIgnoringCase("NODESET", "ID") && !SameIgnoringCase("NODESET", "GROUPNAME")
  {
  }

  lemma FieldToken(sg: Super, key: string, val: string)
    requires key == "ID" || key == "GROUPNAME" || key == "NODESET"
    requires val == "" || !IsSpace(val[0])
    ensures ReadToken(sg, key + ":" + val) ==
              if key == "ID" then sg.(id := val)
              else if key == "GROUPNAME" then sg.(name := val)
              else sg.(groups := sg.groups + ReadGroups(val))
  {
    hide ReadGroups, SameIgnoringCase, ReadToken;
    KeyToken(sg, key, val);
    KeysDiffer();
  }

  lemma KeyToken(sg: Super, key: string, val: string)
    requires ':' !in key && key != "" && !IsSpace(key[0]) && (val == "" || !IsSpace(val[0]))
    ensures ReadToken(sg, key + ":" + val) == SetField(sg, key, val)
  {
    hide SetField;
    FindAfter(key, ':', val);
    var token := key + ":" + val;
    AroundMark(key, ':', val);
    SkipNone(key);
    SkipNone(val);
  }

  lemma ReadMore(sg: Super, a: string, b: string)
    requires ';' !in a && a != ""
    ensures ReadTokens(sg, Tokens(a + ";" + b, ';')) == ReadTokens(ReadToken(sg, a), Tokens(b, ';'))
  {
    hide Tokens, ReadToken;
    TokensAfter(a, ';', b);
    assert ([a] + Tokens(b, ';'))[1..] == Tokens(b, ';');
  }

  lemma ReadIdText(sg: Super, id: string, rest: string)
    requires CleanText(id) && sg.id == ""
    ensures ReadTokens(sg, Tokens(IdText(id) + rest, ';')) ==
            ReadTokens(sg.(id := id), Tokens(rest, ';'))
  {
    hide Tokens, ReadTokens, ReadToken;
    if id == "" {
      assert IdText(id) + rest == rest;
    } else {
      assert IdText(id) + rest == "ID" + ":" + id + ";" + rest;
      ReadMore(sg, "ID" + ":" + id, rest);
      FieldToken(sg, "ID", id);
    }
  }

  lemma ReadNameText(sg: Super, name: string, rest: string)
    requires CleanText(name) && sg.name == ""
    ensures ReadTokens(sg, Tokens(NameText(name) + rest, ';')) ==
            ReadTokens(sg.(name := name), Tokens(rest, ';'))
  {
    hide Tokens, ReadTokens, ReadToken;
    if name == "" {
      assert NameText(name) + rest == rest;
    } else {
      assert NameText(name) + rest == "GROUPNAME" + ":" + name + ";" + rest;
      ReadMore(sg, "GROUPNAME" + ":" + name, rest);
      FieldToken(sg, "GROUPNAME", name);
    }
  }

  lemma ReadNodesetText(sg: Super, gs: seq<seq<NodeDef>>)
    requires sg.groups == []
    ensures ReadTokens(sg, Tokens(NodesetText(gs), ';')) == sg.(groups := gs)
  {
    hide Tokens, ReadToken, GroupsText, ReadGroups;
    if gs == [] {
      TokensAlone("", ';');
    } else {
      var a := "NODESET" + ":" + GroupsText(gs);
      assert NodesetText(gs) == a;
      GroupsTextChars(gs, ",()");
      OnlyAvoids(GroupsText(gs), ",()", ';');
      TokensAlone(a, ';');
      GroupsStart(gs);
      FieldToken(sg, "NODESET", GroupsText(gs));
      ReadPrintedGroups("", gs);
      assert "" + GroupsText(gs) == GroupsText(gs);
      assert [] + gs == gs;
      assert [a][1..] == [];
    }
  }

  lemma GroupsStart(gs: seq<seq<NodeDef>>)
    requires gs != []
    ensures GroupsText(gs) != "" && GroupsText(gs)[0] == '('
  {
  }

  /** A printed super group is read back from its line. */
  lemma ReadPrintedLine(sg: Super)
    requires CleanTexts(sg)
    ensures ReadLine(SuperText(sg)) == sg
  {
    hide Tokens, ReadTokens, IdText, NameText, NodesetText, CleanText;
    var tail := NameText(sg.name) + NodesetText(sg.groups);
    assert SuperText(sg) == IdText(sg.id) + tail;
    ReadIdText(EMPTY, sg.id, tail);
    ReadNameText(EMPTY.(id := sg.id), sg.name, NodesetText(sg.groups));
    ReadNodesetText(Super(sg.id, sg.name, []), sg.groups);
  }

  lemma SuperTextStart(sg: Super)
    ensures SuperText(sg) == "" <==> sg == EMPTY
    ensures SuperText(sg) != "" ==> SuperText(sg)[0] in "IGN"
  {
    hide GroupsText;
    if sg.id != "" {
      assert SuperText(sg)[0] == 'I';
    } else if sg.name != "" {
      assert SuperText(sg)[0] == 'G';
    } else if sg.groups != [] {
      assert SuperText(sg)[0] == 'N';
    }
  }

  lemma SuperTextOneLine(sg: Super)
    requires CleanTexts(sg)
    ensures '\n' !in SuperText(sg)
  {
    hide GroupsText;
    GroupsTextChars(sg.groups, ",()");
    OnlyAvoids(GroupsText(sg.groups), ",()", '\n');
  }

  /** A printed line adds its super group to the current section, unless it is empty. */
  lemma StepPrinted(st: Reading, sg: Super)
    requires CleanTexts(sg) && st.cur != Unknown
    ensures Step(st, SuperText(sg)) == if sg == EMPTY then st else AddSuper(st, sg)
  {
    hide SuperText, ReadLine, CleanTexts;
    SuperTextStart(sg);
    SkipNone(SuperText(sg));
    ReadPrintedLine(sg);
  }

  // ----- the file -------------------------------------------------------------

  function WithoutEmpty(sgl: seq<Super>): (r: seq<Super>)
    ensures |r| <= |sgl|
  {
    if sgl == [] then []
    else (if sgl[0] == EMPTY then [] else [sgl[0]]) + WithoutEmpty(sgl[1..])
  }

  ghost predicate AllCleanTexts(sgl: seq<Super>) {
    forall i :: 0 <= i < |sgl| ==> CleanTexts(sgl[i])
  }

  function AddSupers(st: Reading, sgl: seq<Super>): Reading {
    match st.cur
    case PathInfo => st.(path := st.path + sgl)
    case SimilarInfo => st.(similar := st.similar + sgl)
    case Unknown => st
  }

  lemma {:induction false} ReadSection(st: Reading, sgl: seq<Super>, tail: string)
    requires AllCleanTexts(sgl) && st.cur != Unknown
    ensures Steps(st, SplitOn(SupersText(sgl) + tail, '\n')) ==
            Steps(AddSupers(st, WithoutEmpty(sgl)), SplitOn(tail, '\n'))
    decreases sgl
  {
    hide Step, SuperText, SplitOn, CleanTexts;
    if sgl == [] {
      assert SupersText(sgl) + tail == tail;
      assert AddSupers(st, []) == st;
    } else {
      var line, rest := SuperText(sgl[0]), SupersText(sgl[1..]) + tail;
      assert SupersText(sgl) + tail == line + "\n" + rest;
      SuperTextOneLine(sgl[0]);
      SplitAfter(line, '\n', rest);
      var lines := [line] + SplitOn(rest, '\n');
      assert lines[1..] == SplitOn(rest, '\n');
      StepPrinted(st, sgl[0]);
      var st' := Step(st, line);
      ReadSection(st', sgl[1..], tail);
      AddSupersStep(st, sgl);
    }
  }

  lemma AddSupersStep(st: Reading, sgl: seq<Super>)
    requires sgl != [] && st.cur != Unknown
    ensures var st' := if sgl[0] == EMPTY then st else AddSuper(st, sgl[0]);
            st'.cur == st.cur &&
            AddSupers(st', WithoutEmpty(sgl[1..])) == AddSupers(st, WithoutEmpty(sgl))
  {
    var x, w := sgl[0], WithoutEmpty(sgl[1..]);
    assert WithoutEmpty(sgl) == (if x == EMPTY then [] else [x]) + w;
    hide WithoutEmpty;
    if x == EMPTY {
      assert [] + w == w;
    } else {
      ConcatAssoc(st.path, [x], w);
      ConcatAssoc(st.similar, [x], w);
    }
  }

  lemma ReadHeader(st: Reading, name: string, tail: string)
    requires name == "PATHINFO" || name == "SIMILARINFO"
    ensures Steps(st, SplitOn("--" + name + "\n" + tail, '\n')) ==
            Steps(Enter(st, name), SplitOn(tail, '\n'))
  {
    hide SplitOn, ReadLine;
    var line := "--" + name;
    SplitAfter(line, '\n', tail);
    assert ([line] + SplitOn(tail, '\n'))[1..] == SplitOn(tail, '\n');
    SkipNone(line);
    assert line[2..] == name;
  }

  /**
    With clean texts, reading a printed file gives the lists without their empty entries,
    and goes on with whatever follows them.
   */
  lemma {:induction false} ReadPrintedThen(path: seq<Super>, similar: seq<Super>, extra: string)
    requires AllCleanTexts(path) && AllCleanTexts(similar)
    ensures ReadFile(FileText(path, similar) + extra) ==
            Steps(Reading(WithoutEmpty(path), WithoutEmpty(similar), SimilarInfo), SplitOn(extra, '\n'))
  {
    hide Steps, SplitOn, SupersText, Step;
    var second := SupersText(similar) + extra;
    var rest := "--" + "SIMILARINFO" + "\n" + second;
    var body := SupersText(path) + rest;
    FilePieces(SupersText(path), SupersText(similar), extra);
    ReadHeader(START, "PATHINFO", body);
    ReadSection(START, path, rest);
    var st := Reading(WithoutEmpty(path), [], PathInfo);
    assert AddSupers(START, WithoutEmpty(path)) == st;
    ReadHeader(st, "SIMILARINFO", second);
    var st' := st.(cur := SimilarInfo);
    ReadSection(st', similar, extra);
    assert AddSupers(st', WithoutEmpty(similar)) == st'.(similar := WithoutEmpty(similar));
  }

  lemma FilePieces(first: string, second: string, extra: string)
    ensures "--PATHINFO\n" + first + "--SIMILARINFO\n" + second + extra ==
            "--" + "PATHINFO" + "\n" + (first + ("--" + "SIMILARINFO" + "\n" + (second + extra)))
  {
    assert "--PATHINFO\n" == "--" + "PATHINFO" + "\n";
    var head, mark := "--PATHINFO\n", "--" + "SIMILARINFO" + "\n";
    assert "--SIMILARINFO\n" == mark;
    ConcatAssoc(head + first + mark, second, extra);
    ConcatAssoc(head + first, mark, second + extra);
    ConcatAssoc(head, first, mark + (second + extra));
  }

  /** A printed file without additional sections. */
  lemma {:induction false} ReadPrintedFile(path: seq<Super>, similar: seq<Super>)
    requires AllCleanTexts(path) && AllCleanTexts(similar)
    ensures ReadFile(FileText(path, similar)) ==
            Reading(WithoutEmpty(path), WithoutEmpty(similar), SimilarInfo)
  {
    hide Steps, SplitOn, FileText, WithoutEmpty, ReadFile;
    ReadPrintedThen(path, similar, "");
    assert FileText(path, similar) + "" == FileText(path, similar);
    NothingLeft(Reading(WithoutEmpty(path), WithoutEmpty(similar), SimilarInfo));
  }

  lemma NothingLeft(st: Reading)
    ensures Steps(st, SplitOn("", '\n')) == st
  {
    assert SplitOn("", '\n') == [""];
    assert Step(st, "") == st;
    assert [""][1..] == [];
  }

  // ----- what any file is read as ---------------------------------------------

  ghost predicate Unbroken(tokens: seq<string>) {
    forall i :: 0 <= i < |tokens| ==> ';' !in tokens[i] && '\n' !in tokens[i]
  }

  lemma TokensUnbroken(s: string)
    requires '\n' !in s
    ensures Unbroken(Tokens(s, ';'))
  {
    var toks := Tokens(s, ';');
    forall i | 0 <= i < |toks|
      ensures ';' !in toks[i] && '\n' !in toks[i]
    {
      assert toks[i] in toks;
      NonEmptyIn(SplitOn(s, ';'), toks[i]);
      PiecesAvoid(s, ';', toks[i]);
    }
  }

  lemma ReadTokenClean(sg: Super, token: string)
    requires CleanTexts(sg) && ';' !in token && '\n' !in token
    ensures CleanTexts(ReadToken(sg, token))
  {
    hide SameIgnoringCase, ReadGroups;
    match Find(token, ':') {
      case None =>
      case Some(i) =>
        var val := SkipSpaces(token[i + 1..]);
        assert ';' !in val && '\n' !in val;
        assert CleanText(val);
    }
  }

  lemma {:induction false} ReadTokensClean(sg: Super, tokens: seq<string>)
    requires CleanTexts(sg) && Unbroken(tokens)
    ensures CleanTexts(ReadTokens(sg, tokens))
    decreases tokens
  {
    hide CleanTexts, ReadToken;
    if tokens != [] {
      ReadTokenClean(sg, tokens[0]);
      ReadTokensClean(ReadToken(sg, tokens[0]), tokens[1..]);
    }
  }

  ghost predicate CleanReading(st: Reading) {
    AllCleanTexts(st.path) && AllCleanTexts(st.similar)
  }

  lemma StepClean(st: Reading, line: string)
    requires CleanReading(st) && '\n' !in line
    ensures CleanReading(Step(st, line))
  {
    hide ReadLine;
    var s := SkipSpaces(line);
    assert '\n' !in s;
    ReadLineClean(s);
  }

  lemma ReadLineClean(s: string)
    requires '\n' !in s
    ensures CleanTexts(ReadLine(s))
  {
    TokensUnbroken(s);
    ReadTokensClean(EMPTY, Tokens(s, ';'));
  }

  lemma {:induction false} StepsClean(st: Reading, lines: seq<string>)
    requires CleanReading(st) && forall i :: 0 <= i < |lines| ==> '\n' !in lines[i]
    ensures CleanReading(Steps(st, lines))
    decreases lines
  {
    hide CleanReading, Step;
    if lines != [] {
      StepClean(st, lines[0]);
      StepsClean(Step(st, lines[0]), lines[1..]);
    }
  }

  /** Whatever the file says, every id and name read from it is clean. */
  lemma ReadFileClean(text: string)
    ensures CleanReading(ReadFile(text))
  {
    var lines := SplitOn(text, '\n');
    forall i | 0 <= i < |lines|
      ensures '\n' !in lines[i]
    {
      assert lines[i] in lines;
      PiecesAvoid(text, '\n', lines[i]);
    }
    StepsClean(START, lines);
  }

  // ----- the round trip -------------------------------------------------------

  /** Clean texts, and no super group that is wholly empty. */
  ghost predicate Printable(sgl: seq<Super>) {
    forall i :: 0 <= i < |sgl| ==> CleanTexts(sgl[i]) && sgl[i] != EMPTY
  }

  lemma {:induction false} WithoutEmptySame(sgl: seq<Super>)
    ensures WithoutEmpty(sgl) == sgl <==> forall i :: 0 <= i < |sgl| ==> sgl[i] != EMPTY
  {
    if sgl != [] {
      WithoutEmptySame(sgl[1..]);
      if sgl[0] == EMPTY {
        assert |WithoutEmpty(sgl)| <= |sgl| - 1;
      } else {
        assert sgl == [sgl[0]] + sgl[1..];
        assert WithoutEmpty(sgl)[1..] == WithoutEmpty(sgl[1..]);
      }
    }
  }

  ghost predicate RoundTrips(path: seq<Super>, similar: seq<Super>) {
    var r := ReadFile(FileText(path, similar));
    r.path == path && r.similar == similar
  }

  /** Printing then parsing gives back both lists exactly when both are printable. */
  lemma {:induction false} RoundTripIff(path: seq<Super>, similar: seq<Super>)
    ensures RoundTrips(path, similar) <==> Printable(path) && Printable(similar)
  {
    hide ReadFile, FileText, CleanTexts, WithoutEmpty;
    ReadFileClean(FileText(path, similar));
    if AllCleanTexts(path) && AllCleanTexts(similar) {
      ReadPrintedFile(path, similar);
      WithoutEmptySame(path);
      WithoutEmptySame(similar);
    }
  }

  /** A leading space in an id does not survive. */
  lemma {:induction false} LeadingSpaceLost()
    ensures !RoundTrips([Super(" a", "", [])], [])
  {
    var path := [Super(" a", "", [])];
    RoundTripIff(path, []);
    assert !CleanTexts(path[0]);
  }

  // ----- additional sections --------------------------------------------------

  lemma StepKeepsIff(st: Reading, line: string)
    ensures var st' := Step(st, line);
            && |st'.path| + |st'.similar| ==
               |st.path| + |st.similar| + (if IsSuperLine(line) && st.cur != Unknown then 1 else 0)
            && (|st'.path| + |st'.similar| == |st.path| + |st.similar| ==>
                  st'.path == st.path && st'.similar == st.similar)
            && st'.cur == Step(Reading([], [], st.cur), line).cur
  {
    hide ReadLine, SkipSpaces;
  }

  lemma {:induction false} StepsKeepIff(st: Reading, lines: seq<string>)
    ensures var r := Steps(st, lines);
            && |r.path| + |r.similar| >= |st.path| + |st.similar|
            && (|r.path| + |r.similar| == |st.path| + |st.similar| <==> Quiet(st.cur, lines))
            && (Quiet(st.cur, lines) ==> r.path == st.path && r.similar == st.similar)
    decreases lines
  {
    hide Step, IsSuperLine;
    if lines != [] {
      StepKeepsIff(st, lines[0]);
      StepsKeepIff(Step(st, lines[0]), lines[1..]);
    }
  }

  predicate IsKnownHeader(line: string) {
    var s := SkipSpaces(line);
    s == "--PATHINFO" || s == "--SIMILARINFO"
  }

  predicate IsHeader(line: string) {
    var s := SkipSpaces(line);
    |s| >= 3 && s[0] == '-' && s[1] == '-'
  }

  lemma {:induction false} QuietUnknown(lines: seq<string>)
    requires forall i :: 0 <= i < |lines| ==> !IsKnownHeader(lines[i])
    ensures Quiet(Unknown, lines)
    decreases lines
  {
    if lines != [] {
      HeaderEnters(Unknown, lines[0]);
      hide Step, IsKnownHeader;
      QuietUnknown(lines[1..]);
    }
  }

  /** Without a header of a known section, a line leaves an unknown one unknown. */
  lemma HeaderEnters(cur: Section, line: string)
    requires !IsKnownHeader(line) && (cur == Unknown || IsHeader(line))
    ensures Step(Reading([], [], cur), line).cur == Unknown
    ensures IsHeader(line) ==> !IsSuperLine(line)
  {
    hide ReadLine, SkipSpaces;
    var s := SkipSpaces(line);
    if IsHeader(line) {
      assert s == "--" + s[2..];
    }
  }

  /** Sections that start with an unknown header and have no known one are not read. */
  lemma UnknownSectionsQuiet(lines: seq<string>)
    requires lines != [] && IsHeader(lines[0])
    requires forall i :: 0 <= i < |lines| ==> !IsKnownHeader(lines[i])
    ensures Quiet(SimilarInfo, lines)
  {
    hide Step, IsKnownHeader, IsHeader, IsSuperLine;
    HeaderEnters(SimilarInfo, lines[0]);
    QuietUnknown(lines[1..]);
  }

  /**
    Additional sections do not disturb printable lists exactly when no line of theirs is
    read as a super group.
   */
  lemma {:induction false} SectionsIff(path: seq<Super>, similar: seq<Super>, additional: Option<string>)
    requires Printable(path) && Printable(similar)
    ensures var r := ReadFile(FileText(path, similar) + AdditionalText(additional));
            r.path == path && r.similar == similar <==>
            Quiet(SimilarInfo, SplitOn(AdditionalText(additional), '\n'))
  {
    hide ReadFile, FileText, CleanTexts, WithoutEmpty, Steps, Quiet, SplitOn;
    var extra := AdditionalText(additional);
    ReadPrintedThen(path, similar, extra);
    WithoutEmptySame(path);
    WithoutEmptySame(similar);
    StepsKeepIff(Reading(path, similar, SimilarInfo), SplitOn(extra, '\n'));
  }
}
