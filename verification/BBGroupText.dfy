/** The bbgroup file format of groupman.cpp: what is printed, and what is read. */
module BBGroupText {
  import opened Wrappers
  import opened Numerals
  import opened TextScan
  import opened GroupStore

  /** What a super group contributes to the file. */
  datatype Super = Super(id: string, name: string, groups: seq<seq<NodeDef>>)

  const EMPTY := Super("", "", [])

  // ----- printing -------------------------------------------------------------

  function NodeText(nd: NodeDef): string {
    Decimal(nd.nid) + " : " + Hex(nd.start) + " : " + Hex(nd.end)
  }

  function NodesText(ns: seq<NodeDef>): string {
    if ns == [] then ""
    else if |ns| == 1 then NodeText(ns[0])
    else NodeText(ns[0]) + ", " + NodesText(ns[1..])
  }

  function GroupsText(gs: seq<seq<NodeDef>>): string {
    if gs == [] then ""
    else if |gs| == 1 then "(" + NodesText(gs[0]) + ")"
    else "(" + NodesText(gs[0]) + "), " + GroupsText(gs[1..])
  }

  function NodesetText(gs: seq<seq<NodeDef>>): string {
    if gs == [] then "" else "NODESET:" + GroupsText(gs)
  }

  function NameText(name: string): string {
    if name == "" then "" else "GROUPNAME:" + name + ";"
  }

  function IdText(id: string): string {
    if id == "" then "" else "ID:" + id + ";"
  }

  function SuperText(sg: Super): string {
    IdText(sg.id) + NameText(sg.name) + NodesetText(sg.groups)
  }

  function SupersText(sgl: seq<Super>): string {
    if sgl == [] then "" else SuperText(sgl[0]) + "\n" + SupersText(sgl[1..])
  }

  /** The file, without additional sections. */
  function FileText(path: seq<Super>, similar: seq<Super>): string {
    "--PATHINFO\n" + SupersText(path) + "--SIMILARINFO\n" + SupersText(similar)
  }

  /** Additional sections, if any, are written after the two lists. */
  function AdditionalText(additional: Option<string>): string {
    match additional
    case None => ""
    case Some(sections) => sections + "\n"
  }

  // ----- reading nodes --------------------------------------------------------

  /** sscanf "%d : %a : %a": the conversions that succeed, 0 for the addresses that do not. */
  function ReadNode(s: string): Option<NodeDef> {
    match ScanInt(s)
    case None => None
    case Some((nid, rest)) =>
      match ScanAddress(rest)
      case None => Some(NodeDef(nid, 0, 0))
      case Some((start, rest')) =>
        match ScanAddress(rest')
        case None => Some(NodeDef(nid, start, 0))
        case Some((end, _)) => Some(NodeDef(nid, start, end))
  }

  function LeadingRun(s: string, c: char): (n: nat)
    ensures n <= |s|
  {
    if s == [] || s[0] != c then 0 else 1 + LeadingRun(s[1..], c)
  }

  /**
    The strings handed to sscanf. The first is read from the start of the group, not from
    its first token, so that leading commas stay in front of it.
   */
  function Items(s: string): seq<string> {
    var toks := Tokens(s, ',');
    if toks == [] then [s] else [s[..LeadingRun(s, ',')] + toks[0]] + toks[1..]
  }

  function ReadItems(items: seq<string>): seq<NodeDef> {
    if items == [] then [] else
      match ReadNode(SkipSpaces(items[0]))
      case None => ReadItems(items[1..])
      case Some(nd) => [nd] + ReadItems(items[1..])
  }

  /** The bounds of the next parenthesised group: its text, and the text after it. */
  function NextGroup(s: string): (r: Option<(string, string)>)
    ensures r.Some? ==> |r.value.1| < |s|
  {
    match Find(s, '(')
    case None => None
    case Some(i) =>
      SkipShorter(s[i + 1..]);
      var t := SkipSpaces(s[i + 1..]);
      match Find(t, ')')
      case None => None
      case Some(j) =>
        SkipShorter(t[j + 1..]);
        Some((t[..j], SkipSpaces(t[j + 1..])))
  }

  lemma {:induction false} SkipShorter(s: string)
    ensures |SkipSpaces(s)| <= |s|
  {
    if s != [] && IsSpace(s[0]) {
      SkipShorter(s[1..]);
    }
  }

  function ReadGroups(s: string): seq<seq<NodeDef>>
    decreases |s|
  {
    match NextGroup(s)
    case None => []
    case Some((text, rest)) => [ReadItems(Items(text))] + ReadGroups(rest)
  }

  // ----- reading lines --------------------------------------------------------

  function Lower(c: char): char {
    if 'A' <= c <= 'Z' then (c as int - 'A' as int + 'a' as int) as char else c
  }

  /** stricmp(a, b) == 0 */
  predicate SameIgnoringCase(a: string, b: string) {
    |a| == |b| && forall i :: 0 <= i < |a| ==> Lower(a[i]) == Lower(b[i])
  }

  function SetField(sg: Super, key: string, val: string): Super {
    if SameIgnoringCase(key, "ID") then sg.(id := val)
    else if SameIgnoringCase(key, "GROUPNAME") then sg.(name := val)
    else if SameIgnoringCase(key, "NODESET") then sg.(groups := sg.groups + ReadGroups(val))
    else sg
  }

  /** One "key:value" token of a line. */
  function ReadToken(sg: Super, token: string): Super {
    match Find(token, ':')
    case None => sg
    case Some(i) => SetField(sg, SkipSpaces(token[..i]), SkipSpaces(token[i + 1..]))
  }

  function ReadTokens(sg: Super, tokens: seq<string>): Super
    decreases tokens
  {
    if tokens == [] then sg else ReadTokens(ReadToken(sg, tokens[0]), tokens[1..])
  }

  function ReadLine(line: string): Super {
    ReadTokens(EMPTY, Tokens(line, ';'))
  }

  datatype Section = PathInfo | SimilarInfo | Unknown

  datatype Reading = Reading(path: seq<Super>, similar: seq<Super>, cur: Section)

  function Enter(st: Reading, name: string): Reading {
    st.(cur := if name == "PATHINFO" then PathInfo
               else if name == "SIMILARINFO" then SimilarInfo
               else Unknown)
  }

  function AddSuper(st: Reading, sg: Super): Reading {
    match st.cur
    case PathInfo => st.(path := st.path + [sg])
    case SimilarInfo => st.(similar := st.similar + [sg])
    case Unknown => st
  }

  /** One line of the file: a comment, a section header, or a super group. */
  function Step(st: Reading, line: string): Reading {
    var s := SkipSpaces(line);
    if s == "" || s[0] == '#' then st
    else if |s| >= 3 && s[0] == '-' && s[1] == '-' then Enter(st, s[2..])
    else if st.cur == Unknown then st
    else AddSuper(st, ReadLine(s))
  }

  function Steps(st: Reading, lines: seq<string>): Reading
    decreases lines
  {
    if lines == [] then st else Steps(Step(st, lines[0]), lines[1..])
  }

  /** A line that becomes a super group in a known section. */
  predicate IsSuperLine(line: string) {
    var s := SkipSpaces(line);
    s != "" && s[0] != '#' && !(|s| >= 3 && s[0] == '-' && s[1] == '-')
  }

  /** No line of the text is read as a super group when reading starts in section cur. */
  predicate Quiet(cur: Section, lines: seq<string>)
    decreases lines
  {
    lines == [] ||
    ((IsSuperLine(lines[0]) ==> cur == Unknown) &&
     Quiet(Step(Reading([], [], cur), lines[0]).cur, lines[1..]))
  }

  const START := Reading([], [], PathInfo)

  function ReadFile(text: string): Reading {
    Steps(START, SplitOn(text, '\n'))
  }
}
