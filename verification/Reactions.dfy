/**
 What each kind of datagram does to a client, byte for byte: the packets queued, the file, the block
 numbers, and whether the client is given up. The statements name bytes and spellings, not the constants
 and functions of the code.
 */
module Reactions {
  import opened Bytes
  import opened Wire
  import opened Requests
  import opened Sessions

  // ---------- Names and spellings ----------

  /** `path` is the served directory, a slash and the file name, with backslashes turned when fixpath is set. */
  ghost predicate Names(path: Path, env: Env, filename: seq<Byte>) {
    var n := |env.directory|;
    && |path| == n + 1 + |filename|
    && path[..n] == env.directory && path[n] == 47
    && forall i :: 0 <= i < |filename| ==>
         path[n + 1 + i] == if env.fixpath && filename[i] == 92 then 47 else filename[i]
  }

  /** A request names exactly one path, and that path is the one the code builds. */
  lemma OnePathIsNamed(path: Path, env: Env, filename: seq<Byte>)
    ensures Names(path, env, filename) <==> path == PathOf(filename, env)
    ensures Names(path, env, filename) ==> env.directory + [47] <= path
  {
    var p, n := PathOf(filename, env), |env.directory|;
    assert p[..n] == env.directory;
    assert Names(p, env, filename);
    if Names(path, env, filename) {
      forall i | 0 <= i < |path|
        ensures path[i] == p[i]
      {
        if i < n {
          assert path[i] == path[..n][i] && p[i] == p[..n][i];
        } else if i > n {
          assert path[n + 1 + (i - n - 1)] == p[n + 1 + (i - n - 1)];
        }
      }
    }
  }

  /** Every byte of `s` is the upper-case or the lower-case letter at its place. */
  predicate SpelledAs(s: seq<Byte>, upper: seq<Byte>, lower: seq<Byte>)
    requires |upper| == |lower|
  {
    |s| == |upper| && forall i :: 0 <= i < |s| ==> s[i] == upper[i] || s[i] == lower[i]
  }

  predicate SpellsMail(s: seq<Byte>) {
    SpelledAs(s, [77, 65, 73, 76], [109, 97, 105, 108])
  }

  predicate SpellsBlksize(s: seq<Byte>) {
    SpelledAs(s, [66, 76, 75, 83, 73, 90, 69], [98, 108, 107, 115, 105, 122, 101])
  }

  predicate SpellsTsize(s: seq<Byte>) {
    SpelledAs(s, [84, 83, 73, 90, 69], [116, 115, 105, 122, 101])
  }

  /** The mode and option comparisons accept exactly the spellings of one word in any case. */
  lemma WordsAreRecognised(s: seq<Byte>)
    ensures IsMail(s) <==> SpellsMail(s)
    ensures IsBlksize(s) <==> SpellsBlksize(s)
    ensures IsTsize(s) <==> SpellsTsize(s)
  {
    CaseOfWord(s, Ascii("mail"), [77, 65, 73, 76], [109, 97, 105, 108]);
    CaseOfWord(s, Ascii("blksize"), [66, 76, 75, 83, 73, 90, 69], [98, 108, 107, 115, 105, 122, 101]);
    CaseOfWord(s, Ascii("tsize"), [84, 83, 73, 90, 69], [116, 115, 105, 122, 101]);
  }

  lemma CaseOfWord(s: seq<Byte>, word: seq<Byte>, upper: seq<Byte>, lower: seq<Byte>)
    requires |word| == |upper| == |lower|
    requires forall i :: 0 <= i < |word| ==> word[i] == lower[i] && 97 <= lower[i] <= 122 && lower[i] as int == upper[i] as int + 32
    ensures SameIgnoringCase(s, word) <==> SpelledAs(s, upper, lower)
  {
  }

  // ---------- Datagrams that transfer ----------

  /** What every recognised datagram does first: the retry counter and a resent last packet are forgotten. */
  function Heard(s: Session): Session {
    s.(waiting := 0, lastpacket := if s.lastpacket.mark == 2 then Queued([], 0) else s.lastpacket)
  }

  /** Datagrams over 516 bytes, and opcodes outside 1 to 5, change nothing and are not answered. */
  lemma OthersAreIgnored(s: Session, d: seq<Byte>, env: Env)
    requires |d| <= 65468
    requires |d| > 516 || !exists n: Byte :: 1 <= n <= 5 && HasOpcode(d, n)
    ensures React(s, d, env) == Reaction(s, [])
  {
    if |d| <= 516 {
      var b := Buffer(d);
      assert b[0] == 0 ==> !HasOpcode(d, b[1]) || b[1] == 0 || b[1] > 5;
    }
  }

  /** DATA: stored in a write stream and acknowledged with the number it carries; the last one is under 512 bytes. */
  lemma DataIsAcknowledged(s: Session, d: seq<Byte>, env: Env)
    requires HasOpcode(d, 3) && |d| >= 4
    ensures var r := React(s, d, env);
      if !s.sendingfile then r == Reaction(Heard(s), [])
      else
        && r.out == [[0, 4, d[2], d[3]]]
        && r.ses.f == (if s.f.WriteFile? then WriteFile(s.f.content + d[4..]) else s.f)
        && r.ses.currentblockno == (s.currentblockno + 1) % 65536
        && r.ses.actualblockno == (s.actualblockno + 1) % 0x1_0000_0000_0000_0000
        && (r.ses.destroy <==> s.destroy || |d| < 516)
        && r.ses == s.(f := r.ses.f, currentblockno := r.ses.currentblockno, actualblockno := r.ses.actualblockno,
             destroy := r.ses.destroy, waiting := 0, lastpacket := Queued(r.out[0], 1))
  {
    LayoutsAreLiteral(BlockField(d), [], [], []);
    assert Buffer(d)[2..][0] == d[2] && Buffer(d)[2..][1] == d[3];
  }

  /** The bytes the stream yields next; a stream that is not open for reading yields none. */
  function NextBytes(f: FileHandle, size: nat): seq<Byte> {
    match f
    case ReadFile(content, pos) =>
      if pos >= |content| then [] else if pos + size >= |content| then content[pos..] else content[pos..pos + size]
    case _ => []
  }

  /** ACK: the next bytes of the file go out under the next number; the last packet is a short one. */
  lemma AckIsAnswered(s: Session, d: seq<Byte>, env: Env)
    requires HasOpcode(d, 4)
    ensures var r := React(s, d, env); var data := NextBytes(s.f, s.blksize); var n := (s.currentblockno + 1) % 65536;
      if !s.sendingfile then r == Reaction(Heard(s), [])
      else
        && r.out == [[0, 3, n / 256, n % 256] + data]
        && r.ses.f == (if s.f.ReadFile? then ReadFile(s.f.content, s.f.pos + |data|) else s.f)
        && r.ses.currentblockno == n
        && r.ses.actualblockno == (s.actualblockno + 1) % 0x1_0000_0000_0000_0000
        && (r.ses.destroy <==> s.destroy || |data| < s.blksize)
        && r.ses == s.(f := r.ses.f, currentblockno := n, actualblockno := r.ses.actualblockno,
             destroy := r.ses.destroy, waiting := 0, lastpacket := Queued(r.out[0], 1))
  {
    hide DataPacket;
    var n := (s.currentblockno + 1) % 65536;
    LayoutsAreLiteral(n, Fread(s.f, s.blksize), [], []);
    assert Fread(s.f, s.blksize) == NextBytes(s.f, s.blksize);
  }

  /** ERROR: answered with the acknowledgement of block 1, and the client is given up as it is. */
  lemma ErrorEndsTransfer(s: Session, d: seq<Byte>, env: Env)
    requires HasOpcode(d, 5)
    ensures var r := React(s, d, env);
      r.out == [[0, 4, 0, 1]] && r.ses == s.(destroy := true, waiting := 0, lastpacket := Queued([0, 4, 0, 1], 1))
  {
    LayoutsAreLiteral(1, [], [], []);
  }

  // ---------- Requests ----------

  function ErrorBytes(code: Byte, env: Env): seq<Byte> {
    [0, 5, 0, code] + env.text + [0]
  }

  /** WRQ: what is answered, and when a file is opened, at the one path the request names. */
  lemma WriteRequestIsAnswered(s: Session, d: seq<Byte>, env: Env, path: Path)
    requires HasOpcode(d, 2) && Names(path, env, ParseRequest(Buffer(d)).filename)
    ensures var r := React(s, d, env); var q := ParseRequest(Buffer(d));
      var opens := !SpellsMail(q.mode) && path !in env.denied && path in env.writable;
      && r.out == [
           if SpellsMail(q.mode) then ErrorBytes(4, env)
           else if path in env.denied then ErrorBytes(7, env)
           else if path !in env.writable then ErrorBytes(1, env)
           else [0, 4, 0, 0]]
      && r.ses ==
           if opens then s.(f := WriteFile([]), currentblockno := 1, actualblockno := 1, sendingfile := true,
             waiting := 0, lastpacket := Queued(r.out[0], 1))
           else s.(destroy := true, waiting := 0, lastpacket := Queued(r.out[0], 1))
  {
    hide ParseRequest, PathOf, IsMail, SpellsMail, AckPacket, ErrorPacket;
    OnePathIsNamed(path, env, ParseRequest(Buffer(d)).filename);
    WordsAreRecognised(ParseRequest(Buffer(d)).mode);
    ErrorsAreLiteral(env);
    LayoutsAreLiteral(0, [], [], []);
  }

  lemma ErrorsAreLiteral(env: Env)
    ensures ErrorPacket(ERROR_NOFILE, env.text) == ErrorBytes(1, env)
    ensures ErrorPacket(ERROR_ILLEGAL, env.text) == ErrorBytes(4, env)
    ensures ErrorPacket(ERROR_NOUSER, env.text) == ErrorBytes(7, env)
    ensures ErrorPacket(ERROR_OPTION, env.text) == ErrorBytes(8, env)
  {
    LayoutsAreLiteral(ERROR_NOFILE, env.text, [], []);
    LayoutsAreLiteral(ERROR_ILLEGAL, env.text, [], []);
    LayoutsAreLiteral(ERROR_NOUSER, env.text, [], []);
    LayoutsAreLiteral(ERROR_OPTION, env.text, [], []);
  }

  /** The option acknowledgement as it goes out: the value's first byte is lost to the terminator. */
  function OackBytes(option: seq<Byte>, value: seq<Byte>): seq<Byte> {
    [0, 6] + option + [0] + (if value == [] then [] else [0] + value[1..]) + [0, 0, 0]
  }

  /** The block size asked for, when it is one the server takes. */
  predicate SizeGranted(q: Request) {
    Strtol(q.param).InRange? && 8 <= Strtol(q.param).value <= 65464
  }

  /**
   What an RRQ is answered with, in order: a refusal of its mode or option; else the acknowledgement of a
   block size, a report of a missing file, and then a report, the file's size, or its first block.
   */
  function ReadAnswers(sending: bool, q: Request, env: Env, path: Path): seq<seq<Byte>> {
    if SpellsMail(q.mode) then [ErrorBytes(4, env)]
    else if SpellsBlksize(q.opt) && !SizeGranted(q) then [ErrorBytes(8, env)]
    else
      (if SpellsBlksize(q.opt) then [OackBytes(q.opt, q.param)] else [])
      + (if path !in env.present then [ErrorBytes(1, env)] else [])
      + (if path !in env.readable then [ErrorBytes(1, env)]
         else if SpellsTsize(q.opt) then [OackBytes(q.opt, Decimal(|env.readable[path]|))]
         else if sending || SpellsBlksize(q.opt) then []
         else [[0, 3, 0, 1] + NextBytes(ReadFile(env.readable[path], 0), 512)])
  }

  /** The request got past its mode and option. */
  predicate ReadAccepted(q: Request) {
    !SpellsMail(q.mode) && (SpellsBlksize(q.opt) ==> SizeGranted(q))
  }

  /** RRQ: every answer, and what becomes of the client, at the one path the request names. */
  lemma ReadRequestIsAnswered(s: Session, d: seq<Byte>, env: Env, path: Path)
    requires HasOpcode(d, 1) && Names(path, env, ParseRequest(Buffer(d)).filename)
    ensures var r := React(s, d, env); var q := ParseRequest(Buffer(d));
      var sized := ReadAccepted(q) && SpellsBlksize(q.opt);
      var opens := ReadAccepted(q) && path in env.readable && !SpellsTsize(q.opt);
      && r.out == ReadAnswers(s.sendingfile, q, env, path)
      && (r.ses.destroy <==> s.destroy || !ReadAccepted(q) || path !in env.present || path !in env.readable)
      && (r.ses.sendingfile <==> s.sendingfile || sized || opens)
      && r.ses.blksize == (if sized then Strtol(q.param).value else s.blksize)
      && r.ses.currentblockno == (if sized then 0 else if opens && !s.sendingfile then 1 else s.currentblockno)
      && (opens ==> r.ses.f.ReadFile? && r.ses.f.content == env.readable[path])
      && (opens && (sized || s.sendingfile) ==> r.ses.f.pos == 0)
      && (!opens ==> r.ses.f == s.f)
  {
    hide ParseRequest, PathOf, IsMail, IsBlksize, IsTsize, Strtol, ErrorPacket, OackPacket, DataPacket, Decimal, Serve,
         SpellsMail, SpellsBlksize, SpellsTsize, ErrorBytes, OackBytes, NextBytes, OnData, OnAck, OnError, OnWriteRequest;
    var q := ParseRequest(Buffer(d));
    WordsAreRecognised(q.mode);
    WordsAreRecognised(q.opt);
    ErrorsAreLiteral(env);
    OackIsLiteral(q.opt, q.param);
    var start := Reaction(Settle(s), []);
    assert React(s, d, env) == OnReadRequest(Settle(s), q, env);
    if ReadAccepted(q) {
      if SpellsBlksize(q.opt) {
        var r := Emit(start, OackPacket(q.opt, q.param));
        NotBoth(q.opt);
        ServeAnswers(r.(ses := r.ses.(sendingfile := true, currentblockno := 0, actualblockno := 0,
          blksize := Strtol(q.param).value)), q, env, path);
      } else {
        ServeAnswers(start, q, env, path);
      }
    }
  }

  lemma NotBoth(opt: seq<Byte>)
    ensures !(SpellsBlksize(opt) && SpellsTsize(opt))
  {
  }

  lemma OackIsLiteral(option: seq<Byte>, value: seq<Byte>)
    ensures OackPacket(option, value) == OackBytes(option, value)
  {
    LayoutsAreLiteral(0, [], option, value);
  }

  lemma ServeAnswers(r: Reaction, q: Request, env: Env, path: Path)
    requires Names(path, env, q.filename)
    ensures var s := Serve(r, q, env); var opens := path in env.readable && !SpellsTsize(q.opt);
      && s.out == r.out
           + (if path !in env.present then [ErrorBytes(1, env)] else [])
           + (if path !in env.readable then [ErrorBytes(1, env)]
              else if SpellsTsize(q.opt) then [OackBytes(q.opt, Decimal(|env.readable[path]|))]
              else if r.ses.sendingfile then []
              else [[0, 3, 0, 1] + NextBytes(ReadFile(env.readable[path], 0), 512)])
      && (s.ses.destroy <==> r.ses.destroy || path !in env.present || path !in env.readable)
      && (s.ses.sendingfile <==> r.ses.sendingfile || opens)
      && s.ses.blksize == r.ses.blksize
      && s.ses.currentblockno == (if opens && !r.ses.sendingfile then 1 else r.ses.currentblockno)
      && (opens ==> s.ses.f.ReadFile? && s.ses.f.content == env.readable[path])
      && (opens && r.ses.sendingfile ==> s.ses.f.pos == 0)
      && (!opens ==> s.ses.f == r.ses.f)
  {
    hide PathOf, IsTsize, ErrorPacket, OackPacket, DataPacket, Decimal, SpellsTsize, ErrorBytes, OackBytes;
    OnePathIsNamed(path, env, q.filename);
    WordsAreRecognised(q.opt);
    ErrorsAreLiteral(env);
    if path in env.readable {
      OackIsLiteral(q.opt, Decimal(|env.readable[path]|));
      LayoutsAreLiteral(1, Fread(ReadFile(env.readable[path], 0), 512), [], []);
      assert Fread(ReadFile(env.readable[path], 0), 512) == NextBytes(ReadFile(env.readable[path], 0), 512);
    }
  }

  // ---------- Nothing outside the directory ----------

  /** The environments tell the same about one path. */
  ghost predicate AgreeOn(path: Path, env: Env, env': Env) {
    && env'.directory == env.directory && env'.fixpath == env.fixpath && env'.text == env.text
    && (path in env.present <==> path in env'.present)
    && (path in env.denied <==> path in env'.denied)
    && (path in env.writable <==> path in env'.writable)
    && (path in env.readable <==> path in env'.readable)
    && (path in env.readable ==> env.readable[path] == env'.readable[path])
  }

  /** No file but the one a request names has any influence: not on the answers, not on the client. */
  lemma OnlyNamedPathMatters(s: Session, d: seq<Byte>, env: Env, env': Env, path: Path)
    requires |d| <= 516 && Names(path, env, ParseRequest(Buffer(d)).filename) && AgreeOn(path, env, env')
    ensures React(s, d, env) == React(s, d, env')
  {
    hide ParseRequest, PathOf, IsMail, IsBlksize, IsTsize, Strtol, ErrorPacket, OackPacket, DataPacket, Decimal,
         OnData, OnAck, OnError;
    var q := ParseRequest(Buffer(d));
    OnePathIsNamed(path, env, q.filename);
    assert PathOf(q.filename, env') == PathOf(q.filename, env) by { SamePath(q.filename, env, env'); }
  }

  lemma SamePath(filename: seq<Byte>, env: Env, env': Env)
    requires env'.directory == env.directory && env'.fixpath == env.fixpath
    ensures PathOf(filename, env') == PathOf(filename, env)
  {
  }
}
