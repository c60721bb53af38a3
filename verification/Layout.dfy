/** Printing tokens with any layout between them, and scanning them back. */
module Layout {
  import opened Options
  import opened Scanner

  // ---------- Spellings ----------

  /** The words of the language. */
  function Written(k: Keyword): string {
    match k
    case Server => "server"
    case Listen => "listen"
    case Module => "module"
    case Directory => "directory"
    case User => "user"
    case Group => "group"
    case Pidfile => "pidfile"
    case Modulesearchpath => "modulesearchpath"
    case Daemonize => "daemonize"
    case Fixpath => "fixpath"
    case Readtimeout => "readtimeout"
    case Bind => "bind"
    case Port => "port"
    case Name => "name"
    case Path => "path"
  }

  /** A character that starts no longer token, no layout and no comment. */
  predicate IsMark(c: char) {
    !('a' <= c <= 'z') && !('0' <= c <= '9') && c !in " \t\n\"/"
  }

  /** A number in decimal, last digit by remainder. */
  function Numeral(n: nat): (s: string)
    ensures s != "" && forall i :: 0 <= i < |s| ==> '0' <= s[i] <= '9'
  {
    if n < 10 then [(48 + n) as char] else Numeral(n / 10) + [(48 + n % 10) as char]
  }

  /** `text` is a way to write the token: leading zeros are allowed, and a line end may close a string. */
  ghost predicate Spells(t: Token, text: string) {
    match t
    case Kw(k) => text == Written(k)
    case CInt(n) => exists zeros: nat :: text == LeadingZeros(zeros) + Numeral(n)
    case Str(s) =>
      (forall i :: 0 <= i < |s| ==> s[i] != '\"' && s[i] != '\n') && (text == "\"" + s + "\"" || text == "\"" + s + "\n")
    case Bool(b) => if b then text == "true" || text == "yes" else text == "false" || text == "no"
    case Punct(c) => IsMark(c) && text == [c]
  }

  function LeadingZeros(n: nat): string {
    seq(n, _ => '0')
  }

  /** The scanner's words are the words of the language. */
  lemma WordsAreWritten(k: Keyword)
    ensures Spelling(k) == Written(k)
  {
  }

  lemma {:induction false} ValueOfSnoc(acc: nat, s: string, d: char)
    requires (forall i :: 0 <= i < |s| ==> IsDigit(s[i])) && IsDigit(d)
    ensures NumberValue(acc, s + [d]) == NumberValue(acc, s) * 10 + (d as int - 48)
    decreases |s|
  {
    if s == "" {
      assert s + [d] == [d] && [d][1..] == "";
    } else {
      assert (s + [d])[1..] == s[1..] + [d];
      ValueOfSnoc(acc * 10 + DigitValue(s[0]), s[1..], d);
    }
  }

  /** Reading a number undoes printing it. */
  lemma {:induction false} ValueOfNumeral(n: nat)
    ensures NumberValue(0, Numeral(n)) == n
  {
    var d := (48 + n % 10) as char;
    if n < 10 {
      assert "" + [d] == [d];
      ValueOfSnoc(0, "", d);
    } else {
      ValueOfNumeral(n / 10);
      ValueOfSnoc(0, Numeral(n / 10), d);
    }
  }

  lemma {:induction false} ZerosCountForNothing(zeros: nat, text: string)
    requires forall i :: 0 <= i < |text| ==> IsDigit(text[i])
    ensures NumberValue(0, LeadingZeros(zeros) + text) == NumberValue(0, text)
  {
    var padded := LeadingZeros(zeros) + text;
    if zeros == 0 {
      assert padded == text;
    } else {
      assert padded[1..] == LeadingZeros(zeros - 1) + text;
      ZerosCountForNothing(zeros - 1, text);
    }
  }

  lemma NumberIsDigits(n: nat, text: string)
    requires Spells(CInt(n), text)
    ensures text != "" && (forall i :: 0 <= i < |text| ==> IsDigit(text[i])) && NumberValue(0, text) == n
  {
    hide Numeral, NumberValue;
    var zeros: nat :| text == LeadingZeros(zeros) + Numeral(n);
    ZerosCountForNothing(zeros, Numeral(n));
    ValueOfNumeral(n);
  }

  /** One more digit behind a numeral with leading zeros makes another one. */
  lemma OneMoreDigit(zeros: nat, n: nat, d: nat) returns (more: nat)
    requires d < 10
    ensures LeadingZeros(zeros) + Numeral(n) + [(48 + d) as char] == LeadingZeros(more) + Numeral(n * 10 + d)
  {
    var m := n * 10 + d;
    assert m / 10 == n && m % 10 == d;
    if n == 0 {
      more := zeros + 1;
      assert Numeral(0) == "0" && Numeral(m) == [(48 + d) as char];
    } else {
      more := zeros;
      assert Numeral(m) == Numeral(n) + [(48 + d) as char];
    }
  }

  /** Every digit string spells a number, its value. */
  lemma {:induction false} DigitsSpellNumbers(text: string)
    requires text != "" && forall i :: 0 <= i < |text| ==> IsDigit(text[i])
    ensures Spells(CInt(NumberValue(0, text)), text)
    decreases |text|
  {
    hide NumberValue, Numeral, LeadingZeros;
    var before, d := text[..|text| - 1], text[|text| - 1];
    var v := d as int - 48;
    assert text == before + [d];
    ValueOfSnoc(0, before, d);
    if before == "" {
      ValueOfNothing();
      OneDigit(d);
    } else {
      DigitsSpellNumbers(before);
      var n := NumberValue(0, before);
      var zeros: nat :| before == LeadingZeros(zeros) + Numeral(n);
      var more := OneMoreDigit(zeros, n, v);
      assert text == LeadingZeros(more) + Numeral(NumberValue(0, text));
    }
  }

  lemma OneDigit(d: char)
    requires IsDigit(d)
    ensures [d] == LeadingZeros(0) + Numeral(d as int - 48)
  {
    var v: nat := d as int - 48;
    assert Numeral(v) == [(48 + v) as char] == [d];
    assert LeadingZeros(0) == "";
  }

  lemma ValueOfNothing()
    ensures NumberValue(0, "") == 0
  {
  }

  /** What may follow the token directly, so that no longer match begins here. */
  ghost predicate MayFollow(t: Token, rest: string) {
    && (t.CInt? ==> rest == "" || !IsDigit(rest[0]))
    && (t == Kw(Module) ==> rest == "" || rest[0] != 's')
  }

  lemma PrefixAt(w: string, s: string, i: nat)
    requires i < |w|
    ensures w <= s ==> |w| <= |s| && s[i] == w[i]
  {
  }

  lemma RulePositions()
    ensures |Rules| == 24
    ensures Rules[17] == Number && Rules[18] == Quoted && Rules[19] == Truth && Rules[20] == Falsehood
    ensures Rules[15] == Blank && Rules[16] == Newline && Rules[21] == OpenComment && Rules[22] == LineComment && Rules[23] == Any
  {
  }

  function Position(k: Keyword): (i: nat)
    ensures i < 15 && Rules[i] == Word(k)
  {
    match k
    case Server => 0
    case Bind => 1
    case Port => 2
    case Directory => 3
    case Fixpath => 4
    case User => 5
    case Group => 6
    case Pidfile => 7
    case Daemonize => 8
    case Readtimeout => 9
    case Listen => 10
    case Module => 11
    case Name => 12
    case Path => 13
    case Modulesearchpath => 14
  }

  lemma WordPositions(j: nat)
    requires j < 15
    ensures Rules[j].Word? && Position(Rules[j].k) == j
  {
  }

  /** The first two letters tell all words apart, but for module and modulesearchpath. */
  function Two(k: Keyword): string {
    Spelling(k)[..2]
  }

  lemma TwoTellsWordsApart(k: Keyword, w: Keyword)
    requires k != w && Two(k) == Two(w)
    ensures k in {Module, Modulesearchpath} && w in {Module, Modulesearchpath}
  {
    assert Two(k) == [Spelling(k)[0], Spelling(k)[1]];
    assert Two(w) == [Spelling(w)[0], Spelling(w)[1]];
    assert Two(k)[0] == Two(w)[0] && Two(k)[1] == Two(w)[1];
  }

  lemma StartsWith(w: string, s: string)
    requires w <= s && |w| >= 2
    ensures s[..2] == w[..2]
  {
  }

  lemma ModuleStandsAlone(rest: string)
    requires rest == "" || rest[0] != 's'
    ensures !(Spelling(Modulesearchpath) <= Spelling(Module) + rest)
  {
    var s := Spelling(Module) + rest;
    PrefixAt(Spelling(Modulesearchpath), s, 6);
    assert rest != "" ==> s[6] == rest[0];
  }

  lemma OtherWordsShorter(k: Keyword, w: Keyword, rest: string)
    requires k != w && (k == Module ==> rest == "" || rest[0] != 's')
    ensures MatchLen(Word(w), Spelling(k) + rest) < |Spelling(k)|
  {
    var s := Spelling(k) + rest;
    if Spelling(w) <= s {
      StartsWith(Spelling(w), s);
      StartsWith(Spelling(k), s);
      TwoTellsWordsApart(k, w);
      if k == Module {
        ModuleStandsAlone(rest);
      }
    }
  }

  /** A word's first letter, and the rules it rules out. */
  lemma LettersOnly(k: Keyword, rest: string)
    ensures var s := Spelling(k) + rest;
      forall r :: r in {Blank, Newline, Number, Quoted, Truth, Falsehood, OpenComment, LineComment, Any} ==>
        MatchLen(r, s) < 4
  {
    var s := Spelling(k) + rest;
    assert s[0] == Spelling(k)[0] && s[1] == Spelling(k)[1];
    PrefixAt("true", s, 0);
    PrefixAt("yes", s, 0);
    PrefixAt("false", s, 0);
    PrefixAt("false", s, 1);
    PrefixAt("no", s, 0);
    PrefixAt("no", s, 1);
    PrefixAt("/*", s, 0);
    PrefixAt("//", s, 0);
    FirstLetter(k);
  }

  lemma FirstLetter(k: Keyword)
    ensures var c, d := Spelling(k)[0], Spelling(k)[1];
      'b' <= c <= 'u' && c != 't' && !(c == 'f' && d == 'a') && !(c == 'n' && d == 'o')
  {
  }

  lemma MunchWord(k: Keyword, rest: string)
    requires MayFollow(Kw(k), rest)
    ensures Best(Rules, Spelling(k) + rest) == (Word(k), |Spelling(k)|)
  {
    var s := Spelling(k) + rest;
    var i := Position(k);
    assert MatchLen(Rules[i], s) == |Spelling(k)|;
    LettersOnly(k, rest);
    RulePositions();
    forall j | 0 <= j < |Rules| && j != i
      ensures MatchLen(Rules[j], s) < |Spelling(k)|
    {
      if j < 15 {
        WordPositions(j);
        OtherWordsShorter(k, Rules[j].k, rest);
      } else {
        OtherRules(j);
      }
    }
    BestIs(Rules, s, i);
  }

  lemma OtherRules(j: nat)
    requires 15 <= j < |Rules|
    ensures Rules[j] in {Blank, Newline, Number, Quoted, Truth, Falsehood, OpenComment, LineComment, Any}
  {
  }

  /** Inputs that do not start with a letter match no word. */
  lemma NoWord(s: string, j: nat)
    requires s != "" && !('a' <= s[0] <= 'z') && j < |Rules|
    ensures (j < 15 || j == 19 || j == 20) ==> MatchLen(Rules[j], s) == 0
  {
    RulePositions();
    if j < 15 {
      WordPositions(j);
      FirstLetter(Rules[j].k);
      PrefixAt(Spelling(Rules[j].k), s, 0);
    } else {
      PrefixAt("true", s, 0);
      PrefixAt("yes", s, 0);
      PrefixAt("false", s, 0);
      PrefixAt("no", s, 0);
    }
  }

  /** The rules that start with a given character, outside letters. */
  lemma OtherStarts(s: string, j: nat)
    requires s != "" && !('a' <= s[0] <= 'z') && j < |Rules|
    ensures MatchLen(Rules[j], s) > 0 ==>
      || (Rules[j] == Blank && (s[0] == ' ' || s[0] == '\t'))
      || (Rules[j] == Newline && s[0] == '\n')
      || (Rules[j] == Number && IsDigit(s[0]))
      || (Rules[j] == Quoted && s[0] == '\"')
      || (Rules[j] == OpenComment && s[0] == '/' && |s| >= 2 && s[1] == '*')
      || (Rules[j] == LineComment && s[0] == '/' && |s| >= 2 && s[1] == '/')
      || (Rules[j] == Any && MatchLen(Any, s) == 1)
  {
    NoWord(s, j);
    RulePositions();
    PrefixAt("/*", s, 0);
    PrefixAt("/*", s, 1);
    PrefixAt("//", s, 0);
    PrefixAt("//", s, 1);
    if j >= 15 {
      OtherRules(j);
    }
  }

  /** When only rule i and `.` can match, and i does, i is chosen. */
  lemma MunchSingle(s: string, i: nat)
    requires s != "" && !('a' <= s[0] <= 'z') && 15 <= i < 23
    requires MatchLen(Rules[i], s) > 0
    requires s[0] == '/' ==> |s| >= 2
    ensures Best(Rules, s) == (Rules[i], MatchLen(Rules[i], s))
  {
    hide MatchLen;
    RulePositions();
    OtherStarts(s, i);
    forall j | 0 <= j < |Rules| && j != i
      ensures MatchLen(Rules[j], s) == 0 || (j == 23 && MatchLen(Rules[j], s) == 1)
    {
      OtherStarts(s, j);
      DistinctRules(i, j);
    }
    BestIs(Rules, s, i);
  }

  lemma DistinctRules(i: nat, j: nat)
    requires 15 <= i < 23 && j < |Rules| && i != j
    ensures Rules[i] != Rules[j] && (Rules[j] == Any <==> j == 23) && Rules[i] != Any
  {
    RulePositions();
    if j < 15 {
      WordPositions(j);
    }
  }

  // ---------- Tokens, one by one ----------

  lemma {:induction false} DigitsOf(text: string, rest: string)
    requires forall i :: 0 <= i < |text| ==> IsDigit(text[i])
    requires rest == "" || !IsDigit(rest[0])
    ensures Digits(text + rest) == |text|
  {
    if text == "" {
      assert text + rest == rest;
    } else {
      assert (text + rest)[1..] == text[1..] + rest;
      DigitsOf(text[1..], rest);
    }
  }

  lemma {:induction false} BeforeEnd(text: string, rest: string, a: char, b: char)
    requires forall i :: 0 <= i < |text| ==> text[i] != a && text[i] != b
    requires rest != "" && (rest[0] == a || rest[0] == b)
    ensures Before(text + rest, a, b) == |text|
  {
    if text == "" {
      assert text + rest == rest;
    } else {
      assert (text + rest)[1..] == text[1..] + rest;
      BeforeEnd(text[1..], rest, a, b);
    }
  }

  lemma MunchNumber(n: nat, text: string, rest: string)
    requires Spells(CInt(n), text) && MayFollow(CInt(n), rest)
    ensures Best(Rules, text + rest) == (Number, |text|) && TokenOf(Number, text) == Some(CInt(n))
  {
    hide NumberValue;
    NumberIsDigits(n, text);
    DigitsOf(text, rest);
    DigitsOf(text, "");
    assert text + "" == text && text[..|text|] == text;
    RulePositions();
    assert IsDigit(text[0]);
    MunchSingle(text + rest, 17);
  }

  lemma QuotedLength(s: string, close: string, rest: string)
    requires forall i :: 0 <= i < |s| ==> s[i] != '\"' && s[i] != '\n'
    requires close == "\"" || close == "\n"
    ensures MatchLen(Quoted, "\"" + s + close + rest) == |s| + 2
  {
    var all := "\"" + s + close + rest;
    assert all[1..] == s + (close + rest);
    BeforeEnd(s, close + rest, '\"', '\n');
  }

  lemma MunchString(s: string, text: string, rest: string)
    requires Spells(Str(s), text)
    ensures Best(Rules, text + rest) == (Quoted, |text|) && TokenOf(Quoted, text) == Some(Str(s))
  {
    hide MatchLen, Best;
    var all := text + rest;
    var close := text[|text| - 1..];
    QuotedLength(s, close, rest);
    assert text == "\"" + s + close;
    RulePositions();
    MunchSingle(all, 18);
    assert text[1..|text| - 1] == s;
  }

  lemma MunchBool(b: bool, text: string, rest: string)
    requires Spells(Bool(b), text)
    ensures Best(Rules, text + rest) == (if b then Truth else Falsehood, |text|)
  {
    var s := text + rest;
    var i := if b then 19 else 20;
    RulePositions();
    assert s[0] == text[0] && s[1] == text[1];
    assert "true" <= s <==> text == "true" by { PrefixAt("true", s, 0); }
    assert "yes" <= s <==> text == "yes" by { PrefixAt("yes", s, 0); }
    assert "false" <= s <==> text == "false" by { PrefixAt("false", s, 0); }
    assert "no" <= s <==> text == "no" by { PrefixAt("no", s, 0); }
    forall j | 0 <= j < |Rules| && j != i
      ensures MatchLen(Rules[j], s) == 0 || (j == 23 && MatchLen(Rules[j], s) == 1)
    {
      if j < 15 {
        WordPositions(j);
        NotABool(Rules[j].k, s);
      } else if j != 19 && j != 20 {
        OtherRules(j);
        BoolRules(s, j);
      }
    }
    BestIs(Rules, s, i);
  }

  lemma NotABool(k: Keyword, s: string)
    requires |s| >= 2 && ((s[0] == 't') || s[0] == 'y' || (s[0] == 'f' && s[1] == 'a') || (s[0] == 'n' && s[1] == 'o'))
    ensures MatchLen(Word(k), s) == 0
  {
    FirstLetter(k);
    PrefixAt(Spelling(k), s, 0);
    PrefixAt(Spelling(k), s, 1);
  }

  lemma BoolRules(s: string, j: nat)
    requires |s| >= 2 && 'a' <= s[0] <= 'z' && 15 <= j < |Rules| && j != 19 && j != 20
    ensures MatchLen(Rules[j], s) == 0 || (j == 23 && MatchLen(Rules[j], s) == 1)
  {
    RulePositions();
    PrefixAt("/*", s, 0);
    PrefixAt("//", s, 0);
  }

  lemma MunchPunct(c: char, rest: string)
    requires IsMark(c)
    ensures Best(Rules, [c] + rest) == (Any, 1)
  {
    hide MatchLen;
    var s := [c] + rest;
    assert s[0] == c;
    RulePositions();
    AnyMatches(s);
    forall j | 0 <= j < |Rules| && j != 23
      ensures MatchLen(Rules[j], s) == 0
    {
      OtherStarts(s, j);
      if 15 <= j {
        DistinctRules(j, 23);
      } else {
        WordPositions(j);
      }
    }
    BestIs(Rules, s, 23);
  }

  lemma AnyMatches(s: string)
    requires s != "" && s[0] != '\n'
    ensures MatchLen(Any, s) == 1
  {
  }

  /** A spelled token, followed by something that may follow it, is scanned as that token. */
  lemma LexToken(t: Token, text: string, rest: string)
    requires Spells(t, text) && MayFollow(t, rest)
    ensures Lex(text + rest, false) == [t] + Lex(rest, false)
  {
    hide Best, MatchLen;
    var s := text + rest;
    assert text != "" by { SpellingsNonEmpty(t, text); }
    match t
    case Kw(k) =>
      WordsAreWritten(k);
      MunchWord(k, rest);
    case CInt(n) => MunchNumber(n, text, rest);
    case Str(v) => MunchString(v, text, rest);
    case Bool(b) => MunchBool(b, text, rest);
    case Punct(c) => MunchPunct(c, rest);
    assert s[..|text|] == text && s[|text|..] == rest;
    assert Munch(s) == (Some(t), rest, false);
  }

  lemma SpellingsNonEmpty(t: Token, text: string)
    requires Spells(t, text)
    ensures text != ""
  {
    if t.Kw? {
      WordsAreWritten(t.k);
    }
  }

  // ---------- Layout ----------

  /** What may stand between tokens. */
  datatype Gap =
    | Space | Tab | LineEnd
    | ToLineEnd(text: string)  // "//" up to and with the newline
    | Comment(text: string)    // "/*" up to the first "*/"

  // The closing mark of a comment does not occur in `s`.
  ghost predicate NoClose(s: string) {
    forall i :: 0 <= i < |s| - 1 ==> !(s[i] == '*' && s[i + 1] == '/')
  }

  ghost predicate ValidGap(g: Gap) {
    match g
    case ToLineEnd(text) => forall i :: 0 <= i < |text| ==> text[i] != '\n'
    case Comment(text) => NoClose(text)
    case _ => true
  }

  function Show(g: Gap): (s: string)
    ensures s != ""
  {
    match g
    case Space => " "
    case Tab => "\t"
    case LineEnd => "\n"
    case ToLineEnd(text) => "//" + text + "\n"
    case Comment(text) => "/*" + text + "*/"
  }

  lemma LexBlank(g: Gap, rest: string)
    requires g in {Space, Tab, LineEnd}
    ensures Lex(Show(g) + rest, false) == Lex(rest, false)
  {
    var s := Show(g) + rest;
    RulePositions();
    MunchSingle(s, if g == LineEnd then 16 else 15);
    assert s[1..] == rest && s[..1] == Show(g);
    assert Munch(s) == (None, rest, false);
  }

  lemma LineCommentLength(text: string, rest: string)
    requires forall i :: 0 <= i < |text| ==> text[i] != '\n'
    ensures MatchLen(LineComment, "//" + text + "\n" + rest) == |text| + 3
  {
    var s := "//" + text + "\n" + rest;
    assert s[2..] == text + ("\n" + rest);
    BeforeEnd(text, "\n" + rest, '\n', '\n');
  }

  lemma LexLineComment(text: string, rest: string)
    requires forall i :: 0 <= i < |text| ==> text[i] != '\n'
    ensures Lex("//" + text + "\n" + rest, false) == Lex(rest, false)
  {
    hide MatchLen, Best;
    var s := "//" + text + "\n" + rest;
    LineCommentLength(text, rest);
    RulePositions();
    assert s[0] == '/';
    MunchSingle(s, 22);
    assert s[|text| + 3..] == rest;
    assert Munch(s) == (None, rest, false);
  }

  // Inside a comment, text without the closing mark is skipped up to it.
  lemma {:induction false} LexInsideComment(text: string, rest: string)
    requires NoClose(text)
    ensures Lex(text + "*/" + rest, true) == Lex(rest, false)
    decreases |text|
  {
    var s := text + "*/" + rest;
    if text == "" {
      assert s == "*/" + rest && s[2..] == rest;
    } else if text[0] == '*' {
      assert s[0] == '*' && s[1] == (if |text| > 1 then text[1] else '*');
      assert !("*/" <= s) by { PrefixAt("*/", s, 1); }
      assert s[1..] == text[1..] + "*/" + rest;
      LexInsideComment(text[1..], rest);
    } else {
      var n := Before(s, '*', '*');
      assert s[0] == text[0];
      assert s[|text|] == '*';
      assert 1 <= n <= |text|;
      assert !("*/" <= s) by { PrefixAt("*/", s, 0); }
      assert s[n..] == text[n..] + "*/" + rest;
      LexInsideComment(text[n..], rest);
    }
  }

  lemma LexComment(text: string, rest: string)
    requires NoClose(text)
    ensures Lex("/*" + text + "*/" + rest, false) == Lex(rest, false)
  {
    var s := "/*" + text + "*/" + rest;
    RulePositions();
    assert s[0] == '/' && "/*" <= s;
    MunchSingle(s, 21);
    assert s[2..] == text + "*/" + rest;
    assert Munch(s) == (None, s[2..], true);
    LexInsideComment(text, rest);
  }

  lemma LexGap(g: Gap, rest: string)
    requires ValidGap(g)
    ensures Lex(Show(g) + rest, false) == Lex(rest, false)
  {
    hide Lex;
    match g
    case ToLineEnd(text) => LexLineComment(text, rest);
    case Comment(text) => LexComment(text, rest);
    case _ => LexBlank(g, rest);
  }

  function ShowGaps(gs: seq<Gap>): string {
    if gs == [] then "" else Show(gs[0]) + ShowGaps(gs[1..])
  }

  ghost predicate ValidGaps(gs: seq<Gap>) {
    forall i :: 0 <= i < |gs| ==> ValidGap(gs[i])
  }

  lemma {:induction false} LexGaps(gs: seq<Gap>, rest: string)
    requires ValidGaps(gs)
    ensures Lex(ShowGaps(gs) + rest, false) == Lex(rest, false)
  {
    hide Lex, Show;
    if gs == [] {
      assert ShowGaps(gs) + rest == rest;
    } else {
      assert ShowGaps(gs) + rest == Show(gs[0]) + (ShowGaps(gs[1..]) + rest);
      LexGap(gs[0], ShowGaps(gs[1..]) + rest);
      LexGaps(gs[1..], rest);
    }
  }

  // ---------- Comments that do not end ----------

  /** A comment that is not closed swallows the rest of the file. */
  lemma {:induction false} LexUnclosed(text: string)
    requires NoClose(text)
    ensures Lex(text, true) == []
    decreases |text|
  {
    if text != "" {
      assert !("*/" <= text) by {
        if "*/" <= text {
          PrefixAt("*/", text, 0);
          PrefixAt("*/", text, 1);
        }
      }
      LexUnclosed(SkipInComment(text).0);
    }
  }

  lemma UnclosedCommentEndsFile(text: string)
    requires NoClose(text)
    ensures Lex("/*" + text, false) == []
  {
    var s := "/*" + text;
    RulePositions();
    assert s[0] == '/' && "/*" <= s;
    MunchSingle(s, 21);
    assert s[2..] == text;
    assert Munch(s) == (None, s[2..], true);
    LexUnclosed(text);
  }

  /** A slash that opens no comment is a token of its own, and the grammar has no such token. */
  lemma StraySlash(rest: string)
    requires !("//" <= "/" + rest && '\n' in rest) && !("/*" <= "/" + rest)
    ensures Lex("/" + rest, false) == [Punct('/')] + Lex(rest, false)
  {
    hide Best;
    var s := "/" + rest;
    RulePositions();
    LineCommentNeedsEnd(rest);
    forall j | 0 <= j < |Rules| && j != 23
      ensures MatchLen(Rules[j], s) == 0
    {
      OtherStarts(s, j);
      if 15 <= j {
        DistinctRules(j, 23);
      } else {
        WordPositions(j);
      }
    }
    AnyMatches(s);
    BestIs(Rules, s, 23);
    assert s[..1] == "/" && s[1..] == rest;
    assert Munch(s) == (Some(Punct('/')), rest, false);
  }

  lemma LineCommentNeedsEnd(rest: string)
    requires !("//" <= "/" + rest && '\n' in rest)
    ensures MatchLen(LineComment, "/" + rest) == 0
  {
    var s := "/" + rest;
    if "//" <= s {
      assert s[2..] == rest[1..];
      assert forall i :: 0 <= i < |rest[1..]| ==> rest[1..][i] in rest;
    }
  }

  /** So a line comment on the last line, without its newline, is no comment. */
  lemma LastLineNeedsNewline(text: string)
    requires '\n' !in text && (text == "" || (text[0] != '/' && text[0] != '*'))
    ensures Lex("//" + text, false) == [Punct('/'), Punct('/')] + Lex(text, false)
  {
    hide Lex;
    assert "//" + text == "/" + ("/" + text);
    assert !("/*" <= "/" + ("/" + text)) by { PrefixAt("/*", "/" + ("/" + text), 1); }
    assert !("//" <= "/" + text) && !("/*" <= "/" + text) by {
      PrefixAt("//", "/" + text, 1);
      PrefixAt("/*", "/" + text, 1);
    }
    StraySlash("/" + text);
    StraySlash(text);
  }

  // ---------- Whole texts ----------

  /** A token with its spelling and the layout before it. */
  datatype Piece = Piece(gaps: seq<Gap>, token: Token, text: string)

  ghost predicate ValidPiece(p: Piece) {
    ValidGaps(p.gaps) && Spells(p.token, p.text)
  }

  ghost predicate ValidPieces(ps: seq<Piece>) {
    forall i :: 0 <= i < |ps| ==> ValidPiece(ps[i])
  }

  function TokensOf(ps: seq<Piece>): (r: seq<Token>)
    ensures |r| == |ps|
  {
    seq(|ps|, i requires 0 <= i < |ps| => ps[i].token)
  }

  function Render(ps: seq<Piece>, end: seq<Gap>): string {
    if ps == [] then ShowGaps(end) else ShowGaps(ps[0].gaps) + ps[0].text + Render(ps[1..], end)
  }

  /** Numbers and the word module are only ever followed by punctuation, as the grammar has it. */
  ghost predicate Separable(ts: seq<Token>) {
    forall i :: 0 <= i < |ts| - 1 && (ts[i].CInt? || ts[i] == Kw(Module)) ==> ts[i + 1].Punct?
  }

  lemma GapMayFollow(t: Token, gs: seq<Gap>, rest: string)
    requires MayFollow(t, rest)
    ensures MayFollow(t, ShowGaps(gs) + rest)
  {
    if gs == [] {
      assert ShowGaps(gs) + rest == rest;
    } else {
      assert (ShowGaps(gs) + rest)[0] == Show(gs[0])[0];
    }
  }

  lemma PunctMayFollow(t: Token, p: Piece, more: string)
    requires Spells(p.token, p.text) && p.token.Punct?
    ensures MayFollow(t, ShowGaps(p.gaps) + p.text + more)
  {
    var after := p.text + more;
    assert after[0] == p.token.c;
    GapMayFollow(t, p.gaps, after);
    assert ShowGaps(p.gaps) + p.text + more == ShowGaps(p.gaps) + after;
  }

  lemma RestMayFollow(ps: seq<Piece>, end: seq<Gap>)
    requires ps != [] && ValidPieces(ps) && Separable(TokensOf(ps))
    ensures MayFollow(ps[0].token, Render(ps[1..], end))
  {
    hide ShowGaps, Spells, ValidGaps;
    var t := ps[0].token;
    if |ps| == 1 {
      assert MayFollow(t, "");
      GapMayFollow(t, end, "");
      assert ShowGaps(end) + "" == ShowGaps(end);
    } else if t.CInt? || t == Kw(Module) {
      assert TokensOf(ps)[0] == t && TokensOf(ps)[1] == ps[1].token;
      assert ValidPiece(ps[1]);
      PunctMayFollow(t, ps[1], Render(ps[1..][1..], end));
    }
  }

  /** Scanning undoes printing, whatever the layout: blanks, newlines, comments, or nothing at all. */
  lemma {:induction false} LexOfRender(ps: seq<Piece>, end: seq<Gap>)
    requires ValidPieces(ps) && ValidGaps(end) && Separable(TokensOf(ps))
    ensures Lex(Render(ps, end), false) == TokensOf(ps)
  {
    hide Lex, MayFollow, Spells, ValidGaps;
    if ps == [] {
      LexGaps(end, "");
      assert ShowGaps(end) + "" == ShowGaps(end);
      LexNothing();
    } else {
      var rest := Render(ps[1..], end);
      assert ValidPiece(ps[0]);
      assert TokensOf(ps) == [ps[0].token] + TokensOf(ps[1..]);
      SeparableTail(ps);
      RestMayFollow(ps, end);
      assert Render(ps, end) == ShowGaps(ps[0].gaps) + (ps[0].text + rest);
      LexGaps(ps[0].gaps, ps[0].text + rest);
      LexToken(ps[0].token, ps[0].text, rest);
      LexOfRender(ps[1..], end);
    }
  }

  lemma LexNothing()
    ensures Lex("", false) == []
  {
  }

  lemma SeparableTail(ps: seq<Piece>)
    requires ps != [] && Separable(TokensOf(ps)) && ValidPieces(ps)
    ensures Separable(TokensOf(ps[1..])) && ValidPieces(ps[1..])
  {
    assert forall i :: 0 <= i < |ps| - 1 ==> TokensOf(ps[1..])[i] == TokensOf(ps)[i + 1];
    assert forall i :: 0 <= i < |ps| - 1 ==> ps[1..][i] == ps[i + 1];
  }
}
