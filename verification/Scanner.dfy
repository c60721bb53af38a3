/** The configuration scanner of src/scanner.l: longest match, earliest rule on a tie, and a comment state. */
module Scanner {
  import opened Options

  datatype Keyword =
    | Server | Bind | Port | Directory | Fixpath | User | Group | Pidfile | Daemonize
    | Readtimeout | Listen | Module | Name | Path | Modulesearchpath

  datatype Token = Kw(k: Keyword) | CInt(ival: nat) | Str(sval: string) | Bool(bval: bool) | Punct(c: char)

  function Spelling(k: Keyword): (w: string)
    ensures |w| >= 4
  {
    match k
    case Server => "server"
    case Bind => "bind"
    case Port => "port"
    case Directory => "directory"
    case Fixpath => "fixpath"
    case User => "user"
    case Group => "group"
    case Pidfile => "pidfile"
    case Daemonize => "daemonize"
    case Readtimeout => "readtimeout"
    case Listen => "listen"
    case Module => "module"
    case Name => "name"
    case Path => "path"
    case Modulesearchpath => "modulesearchpath"
  }

  /** The rules of the initial state. */
  datatype Rule =
    | Word(k: Keyword)
    | Blank | Newline | Number | Quoted | Truth | Falsehood | OpenComment | LineComment | Any

  /** In the order of the file. */
  const Rules: seq<Rule> := [
    Word(Server), Word(Bind), Word(Port), Word(Directory), Word(Fixpath), Word(User), Word(Group), Word(Pidfile),
    Word(Daemonize), Word(Readtimeout), Word(Listen), Word(Module), Word(Name), Word(Path), Word(Modulesearchpath),
    Blank, Newline, Number, Quoted, Truth, Falsehood, OpenComment, LineComment, Any]

  predicate IsDigit(c: char) {
    '0' <= c <= '9'
  }

  /** Length of the longest prefix of digits. */
  function Digits(s: string): (n: nat)
    ensures n <= |s|
  {
    if s == "" || !IsDigit(s[0]) then 0 else 1 + Digits(s[1..])
  }

  /** Length of the prefix before the first of the two characters, or of all of `s`. */
  function Before(s: string, a: char, b: char): (n: nat)
    ensures n <= |s|
    ensures n < |s| ==> s[n] == a || s[n] == b
    ensures forall i :: 0 <= i < n ==> s[i] != a && s[i] != b
  {
    if s == "" || s[0] == a || s[0] == b then 0 else 1 + Before(s[1..], a, b)
  }

  /** The longest prefix of `s` a rule matches; 0 when it does not match. */
  function MatchLen(r: Rule, s: string): (n: nat)
    ensures n <= |s|
  {
    match r
    case Word(k) => if Spelling(k) <= s then |Spelling(k)| else 0
    case Blank => if s != "" && (s[0] == ' ' || s[0] == '\t') then 1 else 0
    case Newline => if s != "" && s[0] == '\n' then 1 else 0
    case Number => Digits(s)
    case Quoted =>
      if s != "" && s[0] == '\"' then
        var n := 1 + Before(s[1..], '\"', '\n');
        if n < |s| then n + 1 else 0
      else 0
    case Truth => if "true" <= s then 4 else if "yes" <= s then 3 else 0
    case Falsehood => if "false" <= s then 5 else if "no" <= s then 2 else 0
    case OpenComment => if "/*" <= s then 2 else 0
    case LineComment =>
      if "//" <= s then
        var n := 2 + Before(s[2..], '\n', '\n');
        if n < |s| then n + 1 else 0
      else 0
    case Any => if s != "" && s[0] != '\n' then 1 else 0
  }

  /** Longest match among `rules`; the earlier rule wins a tie. */
  function Best(rules: seq<Rule>, s: string): (r: (Rule, nat))
    ensures r.1 <= |s|
  {
    if rules == [] then (Any, 0)
    else
      var rest := Best(rules[1..], s);
      var n := MatchLen(rules[0], s);
      if n > 0 && n >= rest.1 then (rules[0], n) else rest
  }

  /** Rule i is `r`, matches n characters, and no earlier rule matches as many. */
  ghost predicate Chosen(rules: seq<Rule>, s: string, r: Rule, n: nat, i: int) {
    0 <= i < |rules| && rules[i] == r && MatchLen(r, s) == n && forall j :: 0 <= j < i ==> MatchLen(rules[j], s) < n
  }

  /** What Best means: the chosen rule matches, nothing matches longer, nothing earlier matches as long. */
  lemma {:induction false} BestIsLongest(rules: seq<Rule>, s: string)
    ensures var (r, n) := Best(rules, s);
      && (forall i :: 0 <= i < |rules| ==> MatchLen(rules[i], s) <= n)
      && (n > 0 ==> exists i :: Chosen(rules, s, r, n, i))
  {
    hide MatchLen;
    if rules != [] {
      BestIsLongest(rules[1..], s);
      var (r, n) := Best(rules[1..], s);
      assert forall i :: 1 <= i < |rules| ==> rules[i] == rules[1..][i - 1];
      if MatchLen(rules[0], s) > 0 && MatchLen(rules[0], s) >= n {
        assert Chosen(rules, s, rules[0], MatchLen(rules[0], s), 0);
      } else if n > 0 {
        var i :| Chosen(rules[1..], s, r, n, i);
        assert Chosen(rules, s, r, n, i + 1);
      }
    }
  }

  /** A rule that beats every other is the one chosen. */
  lemma {:induction false} BestIs(rules: seq<Rule>, s: string, i: nat)
    requires i < |rules| && MatchLen(rules[i], s) > 0
    requires forall j :: 0 <= j < |rules| && j != i ==>
      MatchLen(rules[j], s) < MatchLen(rules[i], s) || (i < j && MatchLen(rules[j], s) == MatchLen(rules[i], s))
    ensures Best(rules, s) == (rules[i], MatchLen(rules[i], s))
  {
    hide MatchLen;
    BestIsLongest(rules[1..], s);
    assert forall j :: 1 <= j < |rules| ==> rules[j] == rules[1..][j - 1];
    if i > 0 {
      BestIs(rules[1..], s, i - 1);
    }
  }

  /** yylex always makes progress: `.` and the newline rule cover every character. */
  lemma MunchProgresses(s: string)
    requires s != ""
    ensures Best(Rules, s).1 >= 1
  {
    hide Best;
    BestIsLongest(Rules, s);
    assert Rules[16] == Newline && Rules[23] == Any;
  }

  function DigitValue(c: char): nat
    requires IsDigit(c)
  {
    c as int - '0' as int
  }

  /** The value of a digit string, as atoi accumulates it. */
  function NumberValue(acc: nat, s: string): nat
    requires forall i :: 0 <= i < |s| ==> IsDigit(s[i])
    decreases |s|
  {
    if s == "" then acc else NumberValue(acc * 10 + DigitValue(s[0]), s[1..])
  }

  lemma DigitsAreDigits(s: string)
    ensures forall i :: 0 <= i < Digits(s) ==> IsDigit(s[i])
  {
  }

  /** What a matched text returns to the parser, if anything. */
  function TokenOf(r: Rule, text: string): Option<Token> {
    match r
    case Word(k) => Some(Kw(k))
    case Number =>
      DigitsAreDigits(text);
      Some(CInt(NumberValue(0, text[..Digits(text)])))
    case Quoted => if |text| >= 2 then Some(Str(text[1..|text| - 1])) else None
    case Truth => Some(Bool(true))
    case Falsehood => Some(Bool(false))
    case Any => if text != "" then Some(Punct(text[0])) else None
    case _ => None
  }

  /** One match in the initial state: what it returns, the input left, and whether a comment opened. */
  function Munch(s: string): (r: (Option<Token>, string, bool))
    requires s != ""
    ensures |r.1| < |s|
  {
    MunchProgresses(s);
    var (rule, n) := Best(Rules, s);
    (TokenOf(rule, s[..n]), s[n..], rule == OpenComment)
  }

  /** One match in the comment state: the input left, and whether the comment closed. */
  function SkipInComment(s: string): (r: (string, bool))
    requires s != ""
    ensures |r.0| < |s|
  {
    if "*/" <= s then (s[2..], true)
    else if s[0] != '*' then (s[Before(s, '*', '*')..], false)
    else (s[1..], false)
  }

  /** All tokens of `s`, from the initial state or from inside a comment; an unclosed comment ends the input. */
  function Lex(s: string, comment: bool): seq<Token>
    decreases |s|
  {
    if s == "" then []
    else if comment then
      var (rest, closed) := SkipInComment(s);
      Lex(rest, !closed)
    else
      var (t, rest, opens) := Munch(s);
      (if t.Some? then [t.value] else []) + Lex(rest, opens)
  }

  /** yylex over an input buffer, with its start condition. */
  class Lexer {
    var input: string
    var comment: bool

    ghost function Pending(): seq<Token>
      reads this
    {
      Lex(input, comment)
    }

    constructor (text: string)
      ensures Pending() == Lex(text, false)
    {
      input, comment := text, false;
    }

    /** The next token; None at the end of the input. */
    method Yylex() returns (t: Option<Token>)
      modifies this
      ensures t.None? ==> old(Pending()) == [] == Pending()
      ensures t.Some? ==> old(Pending()) == [t.value] + Pending()
    {
      while input != ""
        invariant Pending() == old(Pending())
        decreases |input|
      {
        if comment {
          var (rest, closed) := SkipInComment(input);
          input, comment := rest, !closed;
        } else {
          var (token, rest, opens) := Munch(input);
          input, comment := rest, opens;
          if token.Some? {
            return token;
          }
        }
      }
      t := None;
    }
  }
}
