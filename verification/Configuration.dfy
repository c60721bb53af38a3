/** The configuration grammar of src/parser.y and the actions that build the configuration. */
module Configuration {
  import opened Options
  import Bytes
  import opened Scanner

  datatype ListenBlock = ListenBlock(bindaddr: Option<string>, port: int)
  datatype ModuleBlock = ModuleBlock(name: Option<string>, path: Option<string>)

  datatype Config = Config(
    directory: Option<string>,
    user: Option<string>,
    group: Option<string>,
    pidfile: Option<string>,
    modsearchpath: Option<string>,
    daemonize: int,
    fixpath: int,
    readtimeout: int,
    listenblocks: seq<ListenBlock>,
    moduleblocks: seq<ModuleBlock>)

  /** The three kinds of block. */
  datatype Section = ServerSection | ListenSection | ModuleSection

  /** A zeroed configuration with the defaults an action gives it. */
  function Defaults(daemonize: int): Config {
    Config(None, None, None, None, None, daemonize, 1, 5, [], [])
  }

  /** The action before a block's brace: `server` starts afresh, the others add a block to what there is. */
  function Open(section: Section, c: Option<Config>): Config {
    var base := if c.Some? then c.value else Defaults(-1);
    match section
    case ServerSection => Defaults(1)
    case ListenSection => base.(listenblocks := base.listenblocks + [ListenBlock(None, -1)])
    case ModuleSection => base.(moduleblocks := base.moduleblocks + [ModuleBlock(None, None)])
  }

  /** The block under construction, curblock or curmod, is there. */
  predicate Ready(section: Section, c: Config) {
    (section.ListenSection? ==> c.listenblocks != []) && (section.ModuleSection? ==> c.moduleblocks != [])
  }

  /** The items of the grammar, with the token their value must be. */
  predicate Allowed(section: Section, k: Keyword, v: Token) {
    match section
    case ServerSection =>
      if k in {Directory, User, Group, Pidfile, Modulesearchpath} then v.Str?
      else if k in {Daemonize, Fixpath} then v.Bool?
      else k == Readtimeout && v.CInt?
    case ListenSection => (k == Bind && v.Str?) || (k == Port && v.CInt?)
    case ModuleSection => (k == Path || k == Name) && v.Str?
  }

  /** strdup: the string up to its first NUL. */
  function Strdup(s: string): string {
    if s == "" || s[0] == '\0' then "" else [s[0]] + Strdup(s[1..])
  }

  function Text(v: Token): string
    requires v.Str?
  {
    Strdup(v.sval)
  }

  function Flag(v: Token): int
    requires v.Bool?
  {
    if v.bval then 1 else 0
  }

  /** The action of one item; a later item overwrites an earlier one. */
  function Assign(section: Section, k: Keyword, v: Token, c: Config): (c': Config)
    requires Allowed(section, k, v) && Ready(section, c)
    ensures Ready(section, c')
  {
    match section
    case ServerSection => AssignServer(k, v, c)
    case ListenSection =>
      var last := |c.listenblocks| - 1;
      var b := c.listenblocks[last];
      c.(listenblocks := c.listenblocks[last := if k == Bind then b.(bindaddr := Some(Text(v))) else b.(port := Bytes.ToShort(v.ival))])
    case ModuleSection =>
      var last := |c.moduleblocks| - 1;
      var b := c.moduleblocks[last];
      c.(moduleblocks := c.moduleblocks[last := if k == Path then b.(path := Some(Text(v))) else b.(name := Some(Text(v)))])
  }

  function AssignServer(k: Keyword, v: Token, c: Config): Config
    requires Allowed(ServerSection, k, v)
  {
    match k
    case Directory => c.(directory := Some(Text(v)))
    case User => c.(user := Some(Text(v)))
    case Group => c.(group := Some(Text(v)))
    case Pidfile => c.(pidfile := Some(Text(v)))
    case Modulesearchpath => c.(modsearchpath := Some(Text(v)))
    case Daemonize => c.(daemonize := Flag(v))
    case Fixpath => c.(fixpath := Flag(v))
    case Readtimeout => c.(readtimeout := v.ival)
  }

  /** The items of one block up to its closing brace: what follows it, and the configuration; None is a syntax error. */
  function Items(section: Section, ts: seq<Token>, c: Config): (r: Option<(seq<Token>, Config)>)
    requires Ready(section, c)
    ensures r.Some? ==> |r.value.0| < |ts|
    decreases |ts|
  {
    if ts == [] then None
    else if ts[0] == Punct('}') then Some((ts[1..], c))
    else if |ts| >= 4 && ts[0].Kw? && ts[1] == Punct('=') && Allowed(section, ts[0].k, ts[2]) && ts[3] == Punct(';') then
      Items(section, ts[4..], Assign(section, ts[0].k, ts[2], c))
    else None
  }

  function SectionOf(t: Token): Option<Section> {
    if t == Kw(Server) then Some(ServerSection)
    else if t == Kw(Listen) then Some(ListenSection)
    else if t == Kw(Module) then Some(ModuleSection)
    else None
  }

  datatype Outcome = Accepted(config: Option<Config>) | SyntaxError

  /** yyparse on the remaining tokens, with the configuration built so far. */
  function Parse(ts: seq<Token>, c: Option<Config>): Outcome
    decreases |ts|
  {
    if ts == [] then Accepted(c)
    else if SectionOf(ts[0]).None? || |ts| < 2 || ts[1] != Punct('{') then SyntaxError
    else
      var section := SectionOf(ts[0]).value;
      match Items(section, ts[2..], Open(section, c))
      case None => SyntaxError
      case Some((rest, c')) => Parse(rest, Some(c'))
  }

  /** The parser with its global configuration; syntax errors end the program, here the method. */
  class Parser {
    const lexer: Lexer
    var config: Option<Config>

    constructor (lexer: Lexer)
      ensures this.lexer == lexer && config == None
    {
      this.lexer := lexer;
      config := None;
    }

    /** The value and semicolon of one item, after its keyword. */
    method ReadItem(section: Section, k: Keyword) returns (ok: bool)
      requires config.Some? && Ready(section, config.value)
      modifies this, lexer
      ensures var ts := old(lexer.Pending()); var c := old(config.value);
        if ok then
          && |ts| >= 3 && ts[0] == Punct('=') && Allowed(section, k, ts[1]) && ts[2] == Punct(';')
          && lexer.Pending() == ts[3..] && config == Some(Assign(section, k, ts[1], c))
        else !(|ts| >= 3 && ts[0] == Punct('=') && Allowed(section, k, ts[1]) && ts[2] == Punct(';'))
    {
      var equals := lexer.Yylex();
      if equals != Some(Punct('=')) {
        return false;
      }
      var value := lexer.Yylex();
      if value.None? || !Allowed(section, k, value.value) {
        return false;
      }
      var semicolon := lexer.Yylex();
      if semicolon != Some(Punct(';')) {
        return false;
      }
      config := Some(Assign(section, k, value.value, config.value));
      return true;
    }

    method ReadItems(section: Section) returns (ok: bool)
      requires config.Some? && Ready(section, config.value)
      modifies this, lexer
      ensures var r := Items(section, old(lexer.Pending()), old(config.value));
        if ok then r.Some? && lexer.Pending() == r.value.0 && config == Some(r.value.1) else r.None?
    {
      hide Assign;
      while true
        invariant config.Some? && Ready(section, config.value)
        invariant Items(section, lexer.Pending(), config.value) == Items(section, old(lexer.Pending()), old(config.value))
        decreases |lexer.Pending()|
      {
        ghost var ts, c := lexer.Pending(), config.value;
        var t := lexer.Yylex();
        if t == Some(Punct('}')) {
          return true;
        }
        if t.None? || !t.value.Kw? {
          return false;
        }
        var read := ReadItem(section, t.value.k);
        if !read {
          return false;
        }
        assert lexer.Pending() == ts[4..];
      }
    }

    method Yyparse() returns (ok: bool)
      modifies this, lexer
      ensures Parse(old(lexer.Pending()), old(config)) == if ok then Accepted(config) else SyntaxError
    {
      hide Items, Open;
      while true
        invariant Parse(lexer.Pending(), config) == Parse(old(lexer.Pending()), old(config))
        decreases |lexer.Pending()|
      {
        ghost var ts := lexer.Pending();
        var t := lexer.Yylex();
        if t.None? {
          return true;
        }
        var section := SectionOf(t.value);
        if section.None? {
          return false;
        }
        var brace := lexer.Yylex();
        if brace != Some(Punct('{')) {
          return false;
        }
        assert lexer.Pending() == ts[2..];
        OpenIsReady(section.value, config);
        config := Some(Open(section.value, config));
        var read := ReadItems(section.value);
        if !read {
          return false;
        }
      }
    }
  }

  lemma OpenIsReady(section: Section, c: Option<Config>)
    ensures Ready(section, Open(section, c))
  {
  }
}
