/** Configurations as their authors mean them, and the proof that reading a printed one gives that meaning. */
module ConfigRoundTrip {
  import opened Options
  import Bytes
  import opened Scanner
  import opened Layout
  import opened Configuration

  const INT_MAX: nat := 0x7fff_ffff

  /** `keyword = value;` */
  datatype Item = Item(k: Keyword, v: Token)

  datatype Block = Block(section: Section, items: seq<Item>)

  /** Numbers fit an int. */
  ghost predicate Fits(v: Token) {
    v.CInt? ==> v.ival <= INT_MAX
  }

  /** The items of the grammar, one by one. */
  predicate InGrammar(section: Section, item: Item) {
    match item.k
    case Directory => section.ServerSection? && item.v.Str?
    case User => section.ServerSection? && item.v.Str?
    case Group => section.ServerSection? && item.v.Str?
    case Pidfile => section.ServerSection? && item.v.Str?
    case Modulesearchpath => section.ServerSection? && item.v.Str?
    case Daemonize => section.ServerSection? && item.v.Bool?
    case Fixpath => section.ServerSection? && item.v.Bool?
    case Readtimeout => section.ServerSection? && item.v.CInt?
    case Bind => section.ListenSection? && item.v.Str?
    case Port => section.ListenSection? && item.v.CInt?
    case Name => section.ModuleSection? && item.v.Str?
    case Path => section.ModuleSection? && item.v.Str?
    case Server => false
    case Listen => false
    case Module => false
  }

  /** The parser accepts exactly the items of the grammar. */
  lemma ParserKnowsGrammar(section: Section, item: Item)
    ensures Allowed(section, item.k, item.v) <==> InGrammar(section, item)
  {
  }

  ghost predicate GrammaticalItems(section: Section, items: seq<Item>) {
    forall i :: 0 <= i < |items| ==> InGrammar(section, items[i])
  }

  /** Blocks of the grammar, with any values. */
  ghost predicate Grammatical(bs: seq<Block>) {
    forall i :: 0 <= i < |bs| ==> GrammaticalItems(bs[i].section, bs[i].items)
  }

  /** Items of the grammar, with values that C can hold. */
  ghost predicate WellFormedItems(section: Section, items: seq<Item>) {
    GrammaticalItems(section, items) && forall i :: 0 <= i < |items| ==> Fits(items[i].v)
  }

  ghost predicate WellFormed(bs: seq<Block>) {
    forall i :: 0 <= i < |bs| ==> WellFormedItems(bs[i].section, bs[i].items)
  }

  // ---------- The tokens of a configuration ----------

  function ItemTokens(items: seq<Item>): seq<Token> {
    if items == [] then []
    else [Kw(items[0].k), Punct('='), items[0].v, Punct(';')] + ItemTokens(items[1..])
  }

  /** The word a block starts with. */
  function HeadOf(section: Section): Keyword {
    if section.ServerSection? then Server else if section.ListenSection? then Listen else Module
  }

  function BlockTokens(b: Block): seq<Token> {
    [Kw(HeadOf(b.section)), Punct('{')] + ItemTokens(b.items) + [Punct('}')]
  }

  function FileTokens(bs: seq<Block>): seq<Token> {
    if bs == [] then [] else BlockTokens(bs[0]) + FileTokens(bs[1..])
  }

  // ---------- What a configuration means ----------

  /** The value given last to a keyword. */
  function LastValue(items: seq<Item>, k: Keyword): Option<Token> {
    if items == [] then None
    else if items[|items| - 1].k == k then Some(items[|items| - 1].v)
    else LastValue(items[..|items| - 1], k)
  }

  /** A C string ends at its first NUL. */
  function UpToNul(s: string): string {
    s[..Before(s, '\0', '\0')]
  }

  function StringOr(v: Option<Token>, default: Option<string>): Option<string> {
    if v.Some? && v.value.Str? then Some(UpToNul(v.value.sval)) else default
  }

  function FlagOr(v: Option<Token>, default: int): int {
    if v.Some? && v.value.Bool? then (if v.value.bval then 1 else 0) else default
  }

  function NumberOr(v: Option<Token>, default: int): int {
    if v.Some? && v.value.CInt? then v.value.ival else default
  }

  function MeansListen(items: seq<Item>): ListenBlock {
    ListenBlock(StringOr(LastValue(items, Bind), None), Bytes.ToShort(NumberOr(LastValue(items, Port), -1)))
  }

  function MeansModule(items: seq<Item>): ModuleBlock {
    ModuleBlock(StringOr(LastValue(items, Name), None), StringOr(LastValue(items, Path), None))
  }

  /** A server block on its own, with these other blocks. */
  function MeansServer(items: seq<Item>, listens: seq<ListenBlock>, modules: seq<ModuleBlock>): Config {
    Config(
      StringOr(LastValue(items, Directory), None),
      StringOr(LastValue(items, User), None),
      StringOr(LastValue(items, Group), None),
      StringOr(LastValue(items, Pidfile), None),
      StringOr(LastValue(items, Modulesearchpath), None),
      FlagOr(LastValue(items, Daemonize), 1),
      FlagOr(LastValue(items, Fixpath), 1),
      NumberOr(LastValue(items, Readtimeout), 5),
      listens,
      modules)
  }

  function ListensIn(bs: seq<Block>): seq<ListenBlock> {
    if bs == [] then []
    else ListensIn(bs[..|bs| - 1]) +
         (if bs[|bs| - 1].section.ListenSection? then [MeansListen(bs[|bs| - 1].items)] else [])
  }

  function ModulesIn(bs: seq<Block>): seq<ModuleBlock> {
    if bs == [] then []
    else ModulesIn(bs[..|bs| - 1]) +
         (if bs[|bs| - 1].section.ModuleSection? then [MeansModule(bs[|bs| - 1].items)] else [])
  }

  /** Index of the last server block, or -1. */
  function LastServer(bs: seq<Block>): (i: int)
    ensures -1 <= i < |bs|
  {
    if bs == [] then -1
    else if bs[|bs| - 1].section.ServerSection? then |bs| - 1
    else LastServer(bs[..|bs| - 1])
  }

  /**
   The configuration a file means: its last server block, and the listen and module blocks behind it, in
   order; without a server block, all of them, over the defaults of a missing one.
   */
  function Means(bs: seq<Block>): Option<Config> {
    var i := LastServer(bs);
    var rest := bs[i + 1..];
    if bs == [] then None
    else if i == -1 then Some(Config(None, None, None, None, None, -1, 1, 5, ListensIn(rest), ModulesIn(rest)))
    else Some(MeansServer(bs[i].items, ListensIn(rest), ModulesIn(rest)))
  }

  // ---------- The actions, block by block ----------

  function AssignAll(section: Section, items: seq<Item>, c: Config): (c': Config)
    requires Ready(section, c)
    requires GrammaticalItems(section, items)
    ensures Ready(section, c')
  {
    if items == [] then c
    else
      ParserKnowsGrammar(section, items[|items| - 1]);
      var before := AssignAll(section, items[..|items| - 1], c);
      Assign(section, items[|items| - 1].k, items[|items| - 1].v, before)
  }

  lemma {:induction false} AssignAllCons(section: Section, items: seq<Item>, c: Config)
    requires Ready(section, c) && items != [] && GrammaticalItems(section, items)
    ensures GrammaticalItems(section, items[1..]) && Allowed(section, items[0].k, items[0].v)
    ensures AssignAll(section, items, c) == AssignAll(section, items[1..], Assign(section, items[0].k, items[0].v, c))
    decreases |items|
  {
    hide Assign, Allowed, InGrammar;
    ParserKnowsGrammar(section, items[0]);
    if |items| == 1 {
      assert items[..0] == [] && items[1..] == [];
    } else {
      var before := items[..|items| - 1];
      AssignAllCons(section, before, c);
      assert before[1..] == items[1..][..|items| - 2];
    }
  }

  /** The items of a block are consumed up to its brace, with every action applied in order. */
  lemma {:induction false} ItemsAreRead(section: Section, items: seq<Item>, rest: seq<Token>, c: Config)
    requires Ready(section, c) && GrammaticalItems(section, items)
    ensures Items(section, ItemTokens(items) + [Punct('}')] + rest, c) == Some((rest, AssignAll(section, items, c)))
    decreases |items|
  {
    hide Assign, Allowed, InGrammar;
    var ts := ItemTokens(items) + [Punct('}')] + rest;
    if items == [] {
      assert ts[1..] == rest;
    } else {
      var more := ItemTokens(items[1..]) + [Punct('}')] + rest;
      assert ts == [Kw(items[0].k), Punct('='), items[0].v, Punct(';')] + more;
      assert ts[4..] == more;
      AssignAllCons(section, items, c);
      ItemsAreRead(section, items[1..], rest, Assign(section, items[0].k, items[0].v, c));
    }
  }

  function RunBlock(b: Block, c: Option<Config>): Config
    requires GrammaticalItems(b.section, b.items)
  {
    OpenIsReady(b.section, c);
    AssignAll(b.section, b.items, Open(b.section, c))
  }

  /** The configuration after these blocks, each run on what the ones before it built. */
  function RunBlocks(bs: seq<Block>, c: Option<Config>): Option<Config>
    requires Grammatical(bs)
  {
    if bs == [] then c else Some(RunBlock(bs[|bs| - 1], RunBlocks(bs[..|bs| - 1], c)))
  }

  lemma {:induction false} RunBlocksCons(bs: seq<Block>, c: Option<Config>)
    requires Grammatical(bs) && bs != []
    ensures Grammatical(bs[1..]) && RunBlocks(bs, c) == RunBlocks(bs[1..], Some(RunBlock(bs[0], c)))
    decreases |bs|
  {
    hide RunBlock, GrammaticalItems;
    assert forall i :: 0 <= i < |bs[1..]| ==> bs[1..][i] == bs[i + 1];
    if |bs| == 1 {
      assert bs[..0] == [] && bs[1..] == [];
    } else {
      var before := bs[..|bs| - 1];
      RunBlocksCons(before, c);
      assert before[1..] == bs[1..][..|bs| - 2];
    }
  }

  lemma SectionOfKeyword(section: Section)
    ensures SectionOf(Kw(HeadOf(section))) == Some(section)
  {
  }

  lemma {:induction false} FileIsParsed(bs: seq<Block>, c: Option<Config>)
    requires Grammatical(bs)
    ensures Parse(FileTokens(bs), c) == Accepted(RunBlocks(bs, c))
    decreases |bs|
  {
    hide Allowed, InGrammar, AssignAll, Items;
    if bs != [] {
      var b, ts, rest := bs[0], FileTokens(bs), FileTokens(bs[1..]);
      SectionOfKeyword(b.section);
      assert ts == [Kw(HeadOf(b.section)), Punct('{')] + (ItemTokens(b.items) + [Punct('}')] + rest);
      assert ts[2..] == ItemTokens(b.items) + [Punct('}')] + rest;
      OpenIsReady(b.section, c);
      ItemsAreRead(b.section, b.items, rest, Open(b.section, c));
      RunBlocksCons(bs, c);
      FileIsParsed(bs[1..], Some(RunBlock(b, c)));
    }
  }

  // ---------- Nothing else is accepted ----------

  /** Items that were read up to a brace were items of the grammar, printed. */
  lemma {:induction false} ReadItemsWereItems(section: Section, ts: seq<Token>, c: Config) returns (items: seq<Item>)
    requires Ready(section, c) && Items(section, ts, c).Some?
    ensures GrammaticalItems(section, items)
    ensures ts == ItemTokens(items) + [Punct('}')] + Items(section, ts, c).value.0
    decreases |ts|
  {
    hide Assign, Allowed, InGrammar;
    if ts[0] == Punct('}') {
      items := [];
      assert ts == [ts[0]] + ts[1..];
    } else {
      var item := Item(ts[0].k, ts[2]);
      ParserKnowsGrammar(section, item);
      var more := ReadItemsWereItems(section, ts[4..], Assign(section, ts[0].k, ts[2], c));
      items := [item] + more;
      assert items[1..] == more;
      assert ts == [Kw(item.k), Punct('='), item.v, Punct(';')] + ts[4..];
    }
  }

  lemma {:induction false} ReadBlocksWereBlocks(ts: seq<Token>, c: Option<Config>) returns (bs: seq<Block>)
    requires Parse(ts, c).Accepted?
    ensures Grammatical(bs) && ts == FileTokens(bs)
    decreases |ts|
  {
    hide Items, GrammaticalItems, ItemTokens, Open, SectionOf;
    if ts == [] {
      bs := [];
    } else {
      var section := SectionOf(ts[0]).value;
      OpenIsReady(section, c);
      var items := ReadItemsWereItems(section, ts[2..], Open(section, c));
      var read := Items(section, ts[2..], Open(section, c)).value;
      var more := ReadBlocksWereBlocks(read.0, Some(read.1));
      bs := [Block(section, items)] + more;
      assert bs[1..] == more;
      HeadIsKnown(section, ts[0]);
      BlockJoins(ts, Block(section, items), read.0);
    }
  }

  lemma BlockJoins(ts: seq<Token>, b: Block, rest: seq<Token>)
    requires |ts| >= 2 && ts[0] == Kw(HeadOf(b.section)) && ts[1] == Punct('{')
    requires ts[2..] == ItemTokens(b.items) + [Punct('}')] + rest
    ensures ts == BlockTokens(b) + rest
  {
    hide ItemTokens;
    assert ts == [ts[0], ts[1]] + ts[2..];
  }

  lemma HeadIsKnown(section: Section, t: Token)
    ensures SectionOf(t) == Some(section) <==> t == Kw(HeadOf(section))
  {
  }

  /** A list of tokens is a configuration if and only if it is the printing of blocks of the grammar; the rest are syntax errors. */
  lemma AcceptedIffGrammatical(ts: seq<Token>, c: Option<Config>)
    ensures Parse(ts, c).Accepted? <==> exists bs :: Grammatical(bs) && ts == FileTokens(bs)
  {
    hide Parse, Grammatical, FileTokens;
    if Parse(ts, c).Accepted? {
      var bs := ReadBlocksWereBlocks(ts, c);
    }
    if bs :| Grammatical(bs) && ts == FileTokens(bs) {
      FileIsParsed(bs, c);
    }
  }

  // ---------- In-order assignment is "the last value wins" ----------

  lemma {:induction false} StrdupCuts(s: string)
    ensures Strdup(s) == UpToNul(s)
  {
    if s != "" && s[0] != '\0' {
      StrdupCuts(s[1..]);
    }
  }

  lemma {:induction false} ServerItemsMean(items: seq<Item>)
    requires WellFormedItems(ServerSection, items)
    ensures AssignAll(ServerSection, items, Defaults(1)) == MeansServer(items, [], [])
    decreases |items|
  {
    if items != [] {
      var before, last := items[..|items| - 1], items[|items| - 1];
      ServerItemsMean(before);
      if last.v.Str? {
        StrdupCuts(last.v.sval);
      }
      ServerItemMeans(before, last, items);
    }
  }

  lemma ServerItemMeans(before: seq<Item>, last: Item, items: seq<Item>)
    requires items == before + [last] && InGrammar(ServerSection, last)
    requires last.v.Str? ==> Strdup(last.v.sval) == UpToNul(last.v.sval)
    ensures AssignServer(last.k, last.v, MeansServer(before, [], [])) == MeansServer(items, [], [])
  {
    hide Strdup, UpToNul, StringOr, FlagOr, NumberOr;
    forall k: Keyword
      ensures LastValue(items, k) == if last.k == k then Some(last.v) else LastValue(before, k)
    {
      assert items[..|items| - 1] == before;
    }
    OrValues(last.v);
  }

  lemma OrValues(v: Token)
    ensures v.Str? ==> forall d :: StringOr(Some(v), d) == Some(UpToNul(v.sval))
    ensures v.Bool? ==> forall d :: FlagOr(Some(v), d) == Flag(v)
    ensures v.CInt? ==> forall d :: NumberOr(Some(v), d) == v.ival
  {
  }

  lemma {:induction false} ListenItemsMean(items: seq<Item>, c: Config)
    requires WellFormedItems(ListenSection, items)
    ensures var started := c.(listenblocks := c.listenblocks + [ListenBlock(None, -1)]);
      AssignAll(ListenSection, items, started) == c.(listenblocks := c.listenblocks + [MeansListen(items)])
    decreases |items|
  {
    hide Bytes.ToShort;
    if items == [] {
      assert Bytes.ToShort(-1) == -1;
    } else {
      var before, last := items[..|items| - 1], items[|items| - 1];
      ListenItemsMean(before, c);
      if last.v.Str? {
        StrdupCuts(last.v.sval);
      }
    }
  }

  lemma {:induction false} ModuleItemsMean(items: seq<Item>, c: Config)
    requires WellFormedItems(ModuleSection, items)
    ensures var started := c.(moduleblocks := c.moduleblocks + [ModuleBlock(None, None)]);
      AssignAll(ModuleSection, items, started) == c.(moduleblocks := c.moduleblocks + [MeansModule(items)])
    decreases |items|
  {
    if items != [] {
      var before, last := items[..|items| - 1], items[|items| - 1];
      ModuleItemsMean(before, c);
      StrdupCuts(last.v.sval);
    }
  }

  /** What a listen or module block finds before it. */
  function Base(bs: seq<Block>): Config {
    if Means(bs).Some? then Means(bs).value else Defaults(-1)
  }

  lemma ServerStartsAfresh(before: seq<Block>, b: Block)
    requires b.section.ServerSection?
    ensures Means(before + [b]) == Some(MeansServer(b.items, [], []))
  {
    hide MeansServer;
    var bs := before + [b];
    assert bs[|bs|..] == [];
  }

  lemma OtherBlocksAdd(before: seq<Block>, b: Block)
    requires !b.section.ServerSection?
    ensures var base := Base(before);
      Means(before + [b]) == Some(
        if b.section.ListenSection? then base.(listenblocks := base.listenblocks + [MeansListen(b.items)])
        else base.(moduleblocks := base.moduleblocks + [MeansModule(b.items)]))
  {
    hide MeansServer, MeansListen, MeansModule, ListensIn, ModulesIn;
    var bs := before + [b];
    var i := LastServer(before);
    assert bs[..|bs| - 1] == before;
    var rest := before[i + 1..];
    assert bs[i + 1..] == rest + [b];
    OneMoreBlock(rest, b);
    NoBlocks();
    if i >= 0 {
      assert bs[i] == before[i];
      OtherFieldsStay(before[i].items, ListensIn(rest), ModulesIn(rest), ListensIn(rest + [b]), ModulesIn(rest + [b]));
    } else if before == [] {
      assert rest == [];
    }
  }

  lemma NoBlocks()
    ensures ListensIn([]) == [] && ModulesIn([]) == []
  {
  }

  lemma OtherFieldsStay(items: seq<Item>, ls: seq<ListenBlock>, ms: seq<ModuleBlock>, ls': seq<ListenBlock>, ms': seq<ModuleBlock>)
    ensures var c := MeansServer(items, ls, ms);
      c.listenblocks == ls && c.moduleblocks == ms && c.(listenblocks := ls', moduleblocks := ms') == MeansServer(items, ls', ms')
  {
  }

  /** Running the actions over a whole file builds what the file means. */
  lemma {:induction false} RunBlocksMean(bs: seq<Block>)
    requires WellFormed(bs)
    ensures RunBlocks(bs, None) == Means(bs)
    decreases |bs|
  {
    hide Allowed, InGrammar, AssignAll, MeansServer, MeansListen, MeansModule, Means;
    if bs == [] {
      NothingMeant();
    } else {
      var before, b := bs[..|bs| - 1], bs[|bs| - 1];
      assert bs == before + [b];
      RunBlocksMean(before);
      match b.section
      case ServerSection =>
        ServerItemsMean(b.items);
        ServerStartsAfresh(before, b);
      case ListenSection =>
        ListenItemsMean(b.items, Base(before));
        OtherBlocksAdd(before, b);
      case ModuleSection =>
        ModuleItemsMean(b.items, Base(before));
        OtherBlocksAdd(before, b);
    }
  }

  lemma NothingMeant()
    ensures Means([]) == None
  {
  }

  lemma OneMoreBlock(bs: seq<Block>, b: Block)
    ensures ListensIn(bs + [b]) == if b.section.ListenSection? then ListensIn(bs) + [MeansListen(b.items)] else ListensIn(bs)
    ensures ModulesIn(bs + [b]) == if b.section.ModuleSection? then ModulesIn(bs) + [MeansModule(b.items)] else ModulesIn(bs)
  {
    hide MeansListen, MeansModule;
    assert (bs + [b])[..|bs|] == bs;
  }

  // ---------- The round trip ----------

  lemma {:induction false} ItemTokensSeparable(items: seq<Item>, section: Section)
    requires GrammaticalItems(section, items)
    ensures Separable(ItemTokens(items) + [Punct('}')])
    decreases |items|
  {
    if items != [] {
      ItemTokensSeparable(items[1..], section);
      var rest := ItemTokens(items[1..]) + [Punct('}')];
      var head := [Kw(items[0].k), Punct('='), items[0].v, Punct(';')];
      assert ItemTokens(items) + [Punct('}')] == head + rest;
      AllowedKeyword(section, items[0]);
      SeparableConcat(head, rest);
    }
  }

  lemma AllowedKeyword(section: Section, item: Item)
    requires InGrammar(section, item)
    ensures item.k != Module && !item.v.Kw?
  {
  }

  lemma SeparableConcat(a: seq<Token>, b: seq<Token>)
    requires Separable(a) && Separable(b) && a != [] && !a[|a| - 1].CInt? && a[|a| - 1] != Kw(Module)
    ensures Separable(a + b)
  {
    var ts := a + b;
    forall i | 0 <= i < |ts| - 1 && (ts[i].CInt? || ts[i] == Kw(Module))
      ensures ts[i + 1].Punct?
    {
      if i < |a| - 1 {
        assert a[i] == ts[i] && a[i + 1] == ts[i + 1];
      } else if i >= |a| {
        assert b[i - |a|] == ts[i] && b[i + 1 - |a|] == ts[i + 1];
      }
    }
  }

  lemma {:induction false} FileTokensSeparable(bs: seq<Block>)
    requires Grammatical(bs)
    ensures Separable(FileTokens(bs))
    decreases |bs|
  {
    hide InGrammar;
    if bs != [] {
      var b := bs[0];
      assert forall i :: 0 <= i < |bs[1..]| ==> bs[1..][i] == bs[i + 1];
      FileTokensSeparable(bs[1..]);
      ItemTokensSeparable(b.items, b.section);
      var body := ItemTokens(b.items) + [Punct('}')];
      assert BlockTokens(b) == [Kw(HeadOf(b.section)), Punct('{')] + body;
      SeparableConcat([Kw(HeadOf(b.section)), Punct('{')], body);
      assert BlockTokens(b)[|BlockTokens(b)| - 1] == Punct('}');
      SeparableConcat(BlockTokens(b), FileTokens(bs[1..]));
    }
  }

  /**
   Configuration round trip and layout independence. Any well-formed configuration, written with any
   spelling of its values and any blanks, newlines, comments or nothing between its tokens, is scanned
   and parsed to what it means.
   */
  lemma ConfigurationRoundTrip(bs: seq<Block>, ps: seq<Piece>, end: seq<Gap>)
    requires WellFormed(bs) && TokensOf(ps) == FileTokens(bs) && ValidPieces(ps) && ValidGaps(end)
    ensures Parse(Lex(Render(ps, end), false), None) == Accepted(Means(bs))
  {
    hide Parse, Lex, Render, TokensOf;
    FileTokensSeparable(bs);
    LexOfRender(ps, end);
    FileIsParsed(bs, None);
    RunBlocksMean(bs);
  }

  /** The configuration file reader as it runs: scanner and parser objects over a printed configuration. */
  method ReadPrinted(ghost bs: seq<Block>, ghost ps: seq<Piece>, ghost end: seq<Gap>, text: string) returns (config: Option<Config>)
    requires WellFormed(bs) && TokensOf(ps) == FileTokens(bs) && ValidPieces(ps) && ValidGaps(end) && text == Render(ps, end)
    ensures config == Means(bs)
  {
    hide Means, Parse, Lex, Render;
    ConfigurationRoundTrip(bs, ps, end);
    var lexer := new Lexer(text);
    var parser := new Parser(lexer);
    var ok := parser.Yyparse();
    config := parser.config;
  }

  /** A port in 0..65534 survives its trip through a short; 65535 alone reads as the unset port -1. */
  lemma PortsSurviveShort(port: int)
    requires 0 <= port <= 65535
    ensures Bytes.ToShort(port) % 0x1_0000 == port
    ensures Bytes.ToShort(port) == -1 <==> port == 65535
  {
  }
}
