/**
  user/sh.c: the shell's tokenizer and recursive-descent parser on a command line, and
  nulterminate, which cuts the line into the strings that the command tree points to.

  Pointers into the line are positions; a counted string q..eq is a Span.
 */
module Shell {
  import opened ShellGrammar

  datatype Span = Span(lo: nat, hi: nat)

  // ---------------------------------------------------------------- tokens

  predicate IsSpace(c: char) { c == ' ' || c == '\t' || c == '\r' || c == '\n' || c == '\U{000B}' }

  predicate IsSymbol(c: char) { c in "<|>&;()" }

  predicate IsWordChar(c: char) { !IsSpace(c) && !IsSymbol(c) }

  /** The first position at or after i that is no white space. */
  function SkipSpace(s: string, i: nat): (r: nat)
    requires i <= |s|
    ensures i <= r <= |s| && (r < |s| ==> !IsSpace(s[r])) && (i < |s| && !IsSpace(s[i]) ==> r == i)
    decreases |s| - i
  {
    if i < |s| && IsSpace(s[i]) then SkipSpace(s, i + 1) else i
  }

  function WordEnd(s: string, i: nat): (r: nat)
    requires i <= |s|
    ensures i <= r <= |s| && (r < |s| ==> !IsWordChar(s[r])) && (i < |s| && IsWordChar(s[i]) ==> i < r)
    ensures forall k :: i <= k < r ==> IsWordChar(s[k])
    decreases |s| - i
  {
    if i < |s| && IsWordChar(s[i]) then WordEnd(s, i + 1) else i
  }

  function SymbolTok(c: char): Tok<string>
    requires IsSymbol(c)
  {
    if c == '|' then Bar else if c == '(' then Open else if c == ')' then Close else if c == ';' then Semi
    else if c == '&' then Amp else if c == '<' then Redirect(Input) else Redirect(Output)
  }

  /** The token that starts at j, and where it ends. */
  function TokenAt(s: string, j: nat): (r: (Tok<string>, nat))
    requires j < |s| && !IsSpace(s[j])
    ensures j < r.1 <= |s|
  {
    if IsWordChar(s[j]) then (Word(s[j..WordEnd(s, j)]), WordEnd(s, j))
    else if s[j] == '>' && j + 1 < |s| && s[j + 1] == '>' then (Redirect(Append), j + 2)
    else (SymbolTok(s[j]), j + 1)
  }

  /** The tokens of a line from position i on. */
  function Toks(s: string, i: nat): seq<Tok<string>>
    requires i <= |s|
    decreases |s| - i
  {
    var j := SkipSpace(s, i);
    if j == |s| then [] else [TokenAt(s, j).0] + Toks(s, TokenAt(s, j).1)
  }

  lemma {:induction false} SkipIdempotent(s: string, i: nat)
    requires i <= |s|
    ensures SkipSpace(s, SkipSpace(s, i)) == SkipSpace(s, i)
  {
  }

  lemma ToksSkip(s: string, i: nat)
    requires i <= |s|
    ensures Toks(s, SkipSpace(s, i)) == Toks(s, i)
  {
    SkipIdempotent(s, i);
  }

  // Move past white space.
  method Skip(s: string, i: nat) returns (j: nat)
    requires i <= |s|
    ensures j == SkipSpace(s, i) && i <= j <= |s|
  {
    j := i;
    while j < |s| && IsSpace(s[j])
      invariant i <= j <= |s| && SkipSpace(s, j) == SkipSpace(s, i)
    {
      j := j + 1;
    }
  }

  // What gettoken's return code stands for, with the text of the token.
  function CodeTok(ret: char, text: string): Tok<string>
  {
    if ret == 'a' then Word(text) else if ret == '+' then Redirect(Append) else if IsSymbol(ret) then SymbolTok(ret) else Bar
  }

  /** gettoken: the next token, where it is, and the position after it and the white space behind it. */
  method GetToken(s: string, i: nat) returns (ret: char, q: nat, eq: nat, j: nat)
    requires i <= |s|
    ensures i <= q <= eq <= j <= |s|
    ensures ret == '\0' <==> Toks(s, i) == []
    ensures ret != '\0' ==> i < j && Toks(s, i) == [CodeTok(ret, s[q..eq])] + Toks(s, j)
    ensures ret != '\0' ==> ret == 'a' || ret == '+' || IsSymbol(ret)
    ensures ret == 'a' ==> IsWord(s, Span(q, eq))
    ensures ret == '\0' ==> j == |s|
  {
    hide TokenAt; hide CodeTok; hide IsWord;
    q := Skip(s, i);
    ToksSkip(s, i);
    if q == |s| {
      ret, eq := '\0', q;
    } else {
      ret, eq := Scan(s, q);
    }
    j := Skip(s, eq);
    ToksSkip(s, eq);
  }

  // The switch of gettoken, at a character that is no white space.
  method Scan(s: string, q: nat) returns (ret: char, p: nat)
    requires q < |s| && !IsSpace(s[q])
    ensures q < p <= |s| && TokenAt(s, q) == (CodeTok(ret, s[q..p]), p)
    ensures ret == 'a' || ret == '+' || IsSymbol(ret)
    ensures ret == 'a' ==> IsWord(s, Span(q, p))
  {
    p := q;
    if s[p] == '>' {
      ret := '>';
      p := p + 1;
      if p < |s| && s[p] == '>' {
        ret := '+';
        p := p + 1;
      }
    } else if IsSymbol(s[p]) {
      ret := s[p];
      p := p + 1;
    } else {
      ret := 'a';
      while p < |s| && !IsSpace(s[p]) && !IsSymbol(s[p])
        invariant q <= p <= |s| && WordEnd(s, p) == WordEnd(s, q) && forall k :: q <= k < p ==> IsWordChar(s[k])
      {
        p := p + 1;
      }
    }
  }

  /** A word as gettoken delimits it. */
  predicate IsWord(s: string, sp: Span) {
    && sp.lo < sp.hi <= |s| && (sp.hi < |s| ==> !IsWordChar(s[sp.hi]))
    && forall k :: sp.lo <= k < sp.hi ==> IsWordChar(s[k])
  }

  function FirstChar(t: Tok<string>): char {
    match t
    case Word(_) => 'a'
    case Bar => '|'
    case Open => '('
    case Close => ')'
    case Semi => ';'
    case Amp => '&'
    case Redirect(k) => if k.Input? then '<' else '>'
  }

  /** peek: whether the next token starts with one of the symbols chars. */
  method Peek(s: string, i: nat, chars: string) returns (r: bool, j: nat)
    requires i <= |s| && forall k :: 0 <= k < |chars| ==> IsSymbol(chars[k])
    ensures i <= j <= |s| && Toks(s, j) == Toks(s, i)
    ensures r <==> Toks(s, i) != [] && !Toks(s, i)[0].Word? && FirstChar(Toks(s, i)[0]) in chars
    ensures Toks(s, i) == [] ==> j == |s|
  {
    j := Skip(s, i);
    ToksSkip(s, i);
    r := j < |s| && s[j] in chars;
    if j < |s| {
      FirstOfToken(s, j);
    }
  }

  lemma FirstOfToken(s: string, j: nat)
    requires j < |s| && !IsSpace(s[j])
    ensures TokenAt(s, j).0.Word? <==> !IsSymbol(s[j])
    ensures IsSymbol(s[j]) ==> FirstChar(TokenAt(s, j).0) == s[j]
  {
  }

  // ---------------------------------------------------------------- trees over spans

  function Text(s: string, sp: Span): string { if sp.lo <= sp.hi <= |s| then s[sp.lo..sp.hi] else [] }

  function Texts(s: string, sps: seq<Span>): (r: seq<string>)
    ensures |r| == |sps| && forall i :: 0 <= i < |sps| ==> r[i] == Text(s, sps[i])
  {
    seq(|sps|, i requires 0 <= i < |sps| => Text(s, sps[i]))
  }

  function ChainTexts(s: string, rs: seq<Redirection<Span>>): (r: seq<Redirection<string>>)
    ensures |r| == |rs| && forall i :: 0 <= i < |rs| ==> r[i] == Redirection(Text(s, rs[i].file), rs[i].kind)
  {
    seq(|rs|, i requires 0 <= i < |rs| => Redirection(Text(s, rs[i].file), rs[i].kind))
  }

  /** The tree with the texts in place of the spans. */
  function TextOf(s: string, c: Cmd<Span>): Cmd<string> {
    match c
    case Exec(args) => Exec(Texts(s, args))
    case Redir(d, file, kind) => Redir(TextOf(s, d), Text(s, file), kind)
    case Pipe(l, r) => Pipe(TextOf(s, l), TextOf(s, r))
    case List(l, r) => List(TextOf(s, l), TextOf(s, r))
    case Back(d) => Back(TextOf(s, d))
  }

  lemma {:induction false} TextOfWrap(s: string, c: Cmd<Span>, rs: seq<Redirection<Span>>)
    ensures TextOf(s, Wrap(c, rs)) == Wrap(TextOf(s, c), ChainTexts(s, rs))
    decreases |rs|
  {
    if rs != [] {
      var n := |rs| - 1;
      TextOfWrap(s, c, rs[..n]);
      assert ChainTexts(s, rs)[..n] == ChainTexts(s, rs[..n]);
    }
  }

  /** Every span of the tree is a word of the line. */
  predicate Placed(s: string, c: Cmd<Span>) {
    match c
    case Exec(args) => forall i :: 0 <= i < |args| ==> IsWord(s, args[i])
    case Redir(d, file, kind) => Placed(s, d) && IsWord(s, file)
    case Pipe(l, r) => Placed(s, l) && Placed(s, r)
    case List(l, r) => Placed(s, l) && Placed(s, r)
    case Back(d) => Placed(s, d)
  }

  predicate ChainPlaced(s: string, rs: seq<Redirection<Span>>) { forall i :: 0 <= i < |rs| ==> IsWord(s, rs[i].file) }

  lemma {:induction false} PlacedWrap(s: string, c: Cmd<Span>, rs: seq<Redirection<Span>>)
    requires Placed(s, c) && ChainPlaced(s, rs)
    ensures Placed(s, Wrap(c, rs))
    decreases |rs|
  {
    if rs != [] {
      PlacedWrap(s, c, rs[..|rs| - 1]);
    }
  }

  // ---------------------------------------------------------------- the parser

  /** A parsed command and the position behind it, or a panic. */
  datatype Result = Done(cmd: Cmd<Span>, at: nat) | Failed

  /** The result is what the grammar says, on the text of the line. */
  ghost predicate Agrees(s: string, i: nat, r: Result, p: Parsed<string, Cmd<string>>) {
    && (r.Failed? <==> p.Panic?)
    && (r.Done? ==> i <= r.at <= |s| && TextOf(s, r.cmd) == p.value && Toks(s, r.at) == p.rest && Placed(s, r.cmd))
  }

  // parseredirs; the redirections found so far are rs0.
  method ParseRedirs(s: string, i: nat, rs0: seq<Redirection<Span>>) returns (ok: bool, rs: seq<Redirection<Span>>, j: nat)
    requires i <= |s| && ChainPlaced(s, rs0)
    ensures i <= j <= |s| && (ok <==> Redirs(ChainTexts(s, rs0), Toks(s, i)).Ok?)
    ensures ok ==> ChainPlaced(s, rs) && Redirs(ChainTexts(s, rs0), Toks(s, i)) == Ok(ChainTexts(s, rs), Toks(s, j))
  {
    hide Toks; hide IsWord;
    rs, j := rs0, i;
    ghost var goal := Redirs(ChainTexts(s, rs0), Toks(s, i));
    while true
      invariant i <= j <= |s| && ChainPlaced(s, rs) && Redirs(ChainTexts(s, rs), Toks(s, j)) == goal
      decreases |s| - j
    {
      var more;
      more, j := Peek(s, j, "<>");
      if !more {
        break;
      }
      var tok, q, eq;
      ghost var ts := Toks(s, j);
      tok, q, eq, j := GetToken(s, j);
      var ret;
      ret, q, eq, j := GetToken(s, j);
      if ret != 'a' {
        return false, rs, j;
      }
      var kind := if tok == '<' then Input else if tok == '>' then Output else Append;
      assert ts[0] == Redirect(kind) && ts[1] == Word(s[q..eq]) && ts[2..] == Toks(s, j);
      var r := Redirection(Span(q, eq), kind);
      assert ChainTexts(s, rs + [r]) == ChainTexts(s, rs) + [Redirection(s[q..eq], kind)];
      rs := rs + [r];
    }
    ok := true;
  }

  // parseexec, and the loop over words
  method ParseExecAt(s: string, i: nat) returns (r: Result)
    requires i <= |s|
    ensures Agrees(s, i, r, ParseExec(Toks(s, i)))
    decreases |s| - i, 1
  {
    hide Toks; hide IsWord; hide TextOf; hide Placed; hide Redirs; hide Args; hide ParseLine;
    var block, j := Peek(s, i, "(");
    if block {
      r := ParseBlockAt(s, j);
      return;
    }
    var ok, rs;
    ok, rs, j := ParseRedirs(s, j, []);
    assert ChainTexts(s, []) == [];
    if !ok {
      return Failed;
    }
    r := ParseArgs(s, i, j, rs);
  }

  method ParseArgs(s: string, i: nat, i0: nat, rs0: seq<Redirection<Span>>) returns (r: Result)
    requires i <= i0 <= |s| && ChainPlaced(s, rs0)
    ensures Agrees(s, i, r, Args([], ChainTexts(s, rs0), Toks(s, i0)))
  {
    hide Toks; hide IsWord; hide TextOf; hide Placed; hide Redirs;
    var args: seq<Span>, rs, j := [], rs0, i0;
    ghost var goal := Args([], ChainTexts(s, rs0), Toks(s, i0));
    assert Texts(s, args) == [];
    while true
      invariant i <= j <= |s| && ChainPlaced(s, rs) && |args| < MAXARGS
      invariant forall k :: 0 <= k < |args| ==> IsWord(s, args[k])
      invariant Args(Texts(s, args), ChainTexts(s, rs), Toks(s, j)) == goal
      decreases |s| - j
    {
      var stop;
      stop, j := Peek(s, j, "|)&;");
      if stop {
        break;
      }
      var tok, q, eq, j1 := GetToken(s, j);
      if tok == '\0' {
        break;
      }
      if tok != 'a' {
        return Failed;
      }
      if |args| + 1 >= MAXARGS {
        return Failed;
      }
      assert Texts(s, args + [Span(q, eq)]) == Texts(s, args) + [s[q..eq]];
      args := args + [Span(q, eq)];
      var ok;
      ok, rs, j := ParseRedirs(s, j1, rs);
      if !ok {
        return Failed;
      }
    }
    ExecText(s, args, rs);
    r := Done(Wrap(Exec(args), rs), j);
  }

  lemma ExecText(s: string, args: seq<Span>, rs: seq<Redirection<Span>>)
    requires ChainPlaced(s, rs) && forall k :: 0 <= k < |args| ==> IsWord(s, args[k])
    ensures TextOf(s, Wrap(Exec(args), rs)) == Wrap(Exec(Texts(s, args)), ChainTexts(s, rs)) && Placed(s, Wrap(Exec(args), rs))
  {
    TextOfWrap(s, Exec(args), rs);
    PlacedWrap(s, Exec(args), rs);
  }

  // parseblock, at a '('
  method ParseBlockAt(s: string, i: nat) returns (r: Result)
    requires i <= |s| && Toks(s, i) != [] && Toks(s, i)[0].Open?
    ensures Agrees(s, i, r, ParseExec(Toks(s, i)))
    decreases |s| - i, 0
  {
    hide Toks; hide IsWord; hide TextOf; hide Placed; hide Redirs; hide Args; hide ParseLine;
    var tok, q, eq, j := GetToken(s, i);
    var line := ParseLineAt(s, j);
    if line.Failed? {
      return Failed;
    }
    var closed;
    closed, j := Peek(s, line.at, ")");
    if !closed {
      return Failed;
    }
    tok, q, eq, j := GetToken(s, j);
    var ok, rs;
    ok, rs, j := ParseRedirs(s, j, []);
    assert ChainTexts(s, []) == [];
    if !ok {
      return Failed;
    }
    TextOfWrap(s, line.cmd, rs);
    PlacedWrap(s, line.cmd, rs);
    r := Done(Wrap(line.cmd, rs), j);
  }

  /** parsepipe */
  method ParsePipeAt(s: string, i: nat) returns (r: Result)
    requires i <= |s|
    ensures Agrees(s, i, r, ParsePipe(Toks(s, i)))
    decreases |s| - i, 2
  {
    hide Toks; hide IsWord; hide ParseExec;
    r := ParseExecAt(s, i);
    if r.Failed? {
      return;
    }
    var bar, j := Peek(s, r.at, "|");
    if bar {
      var tok, q, eq;
      tok, q, eq, j := GetToken(s, j);
      var right := ParsePipeAt(s, j);
      if right.Failed? {
        return Failed;
      }
      r := Done(Pipe(r.cmd, right.cmd), right.at);
    } else {
      r := Done(r.cmd, j);
    }
  }

  /** parseline */
  method ParseLineAt(s: string, i: nat) returns (r: Result)
    requires i <= |s|
    ensures Agrees(s, i, r, ParseLine(Toks(s, i)))
    decreases |s| - i, 3
  {
    hide Toks; hide IsWord; hide ParsePipe;
    r := ParsePipeAt(s, i);
    if r.Failed? {
      return;
    }
    var cmd, j := r.cmd, r.at;
    ghost var goal := Backs(TextOf(s, cmd), Toks(s, j));
    while true
      invariant i <= j <= |s| && Placed(s, cmd) && Backs(TextOf(s, cmd), Toks(s, j)) == goal
      decreases |s| - j
    {
      var amp;
      amp, j := Peek(s, j, "&");
      if !amp {
        break;
      }
      var tok, q, eq;
      tok, q, eq, j := GetToken(s, j);
      cmd := Back(cmd);
    }
    var semi;
    semi, j := Peek(s, j, ";");
    if semi {
      var tok, q, eq;
      tok, q, eq, j := GetToken(s, j);
      var rest := ParseLineAt(s, j);
      if rest.Failed? {
        return Failed;
      }
      return Done(List(cmd, rest.cmd), rest.at);
    }
    r := Done(cmd, j);
  }

  // ---------------------------------------------------------------- nulterminate

  /** The strings a tree points to. */
  ghost function SpansOf(c: Cmd<Span>): set<Span> {
    match c
    case Exec(args) => SetOf(args)
    case Redir(d, file, kind) => SpansOf(d) + {file}
    case Pipe(l, r) => SpansOf(l) + SpansOf(r)
    case List(l, r) => SpansOf(l) + SpansOf(r)
    case Back(d) => SpansOf(d)
  }

  ghost function SetOf(sps: seq<Span>): set<Span> { set sp | sp in sps }

  // Position k is where a string of the tree ends.
  ghost predicate Ends(sps: set<Span>, k: nat) { exists sp :: sp in sps && sp.hi == k }

  ghost predicate Fits(sps: set<Span>, n: nat) { forall sp :: sp in sps ==> sp.hi < n }

  /** nulterminate: a NUL at the end of every string, and nowhere else. */
  method Nulterminate(c: Cmd<Span>, buf: array<char>)
    requires Fits(SpansOf(c), buf.Length)
    modifies buf
    ensures forall k :: 0 <= k < buf.Length ==> buf[k] == if Ends(SpansOf(c), k) then '\0' else old(buf[k])
    decreases c
  {
    match c
    case Exec(args) =>
      var i := 0;
      while i < |args|
        invariant 0 <= i <= |args|
        invariant forall k :: 0 <= k < buf.Length ==> buf[k] == if Ends(SetOf(args[..i]), k) then '\0' else old(buf[k])
      {
        EndsMore(args, i);
        assert args[i] in SpansOf(c);
        buf[args[i].hi] := '\0';
        i := i + 1;
      }
      assert args[..i] == args;
    case Redir(d, file, kind) =>
      assert file in SpansOf(c);
      Nulterminate(d, buf);
      buf[file.hi] := '\0';
      EndsUnion(SpansOf(d), {file});
    case Pipe(l, r) =>
      Nulterminate(l, buf);
      Nulterminate(r, buf);
      EndsUnion(SpansOf(l), SpansOf(r));
    case List(l, r) =>
      Nulterminate(l, buf);
      Nulterminate(r, buf);
      EndsUnion(SpansOf(l), SpansOf(r));
    case Back(d) =>
      Nulterminate(d, buf);
  }

  lemma EndsUnion(a: set<Span>, b: set<Span>)
    ensures forall k :: Ends(a + b, k) <==> Ends(a, k) || Ends(b, k)
    ensures forall sp, k :: Ends({sp}, k) <==> sp.hi == k
  {
    forall k ensures Ends(a + b, k) <==> Ends(a, k) || Ends(b, k) {
      if sp :| sp in a && sp.hi == k { assert sp in a + b; }
      if sp :| sp in b && sp.hi == k { assert sp in a + b; }
    }
    forall sp: Span, k: nat ensures Ends({sp}, k) <==> sp.hi == k {
      assert sp in {sp};
    }
  }

  lemma EndsMore(args: seq<Span>, i: nat)
    requires i < |args|
    ensures forall k :: Ends(SetOf(args[..i + 1]), k) <==> Ends(SetOf(args[..i]), k) || args[i].hi == k
  {
    assert args[..i + 1] == args[..i] + [args[i]];
    assert SetOf(args[..i + 1]) == SetOf(args[..i]) + {args[i]};
    EndsUnion(SetOf(args[..i]), {args[i]});
  }

  lemma {:induction false} PlacedSpans(s: string, c: Cmd<Span>)
    requires Placed(s, c)
    ensures forall sp :: sp in SpansOf(c) ==> IsWord(s, sp)
  {
    match c
    case Exec(args) =>
    case Redir(d, _, _) => PlacedSpans(s, d);
    case Pipe(l, r) => PlacedSpans(s, l); PlacedSpans(s, r);
    case List(l, r) => PlacedSpans(s, l); PlacedSpans(s, r);
    case Back(d) => PlacedSpans(s, d);
  }

  /** The C string at position i. */
  function CString(b: string, i: nat): string
    decreases |b| - i
  {
    if i >= |b| || b[i] == '\0' then [] else [b[i]] + CString(b, i + 1)
  }

  lemma {:induction false} CStringIs(b: string, i: nat, j: nat)
    requires i <= j < |b| && b[j] == '\0' && forall k :: i <= k < j ==> b[k] != '\0'
    ensures CString(b, i) == b[i..j]
    decreases j - i
  {
    if i < j {
      CStringIs(b, i + 1, j);
      assert b[i..j] == [b[i]] + b[i + 1..j];
    }
  }

  // Where a word ends there is no word character.
  lemma NoEndInside(s: string, sps: set<Span>, sp: Span, k: nat)
    requires sp in sps && (forall x :: x in sps ==> IsWord(s, x)) && sp.lo <= k < sp.hi
    ensures !Ends(sps, k)
  {
    hide IsWordChar;
    assert IsWord(s, sp);
    assert IsWordChar(s[k]);
  }

  lemma SameSlice(s: string, b: string, lo: nat, hi: nat)
    requires lo <= hi <= |s| && hi <= |b| && forall k :: lo <= k < hi ==> b[k] == s[k]
    ensures b[lo..hi] == s[lo..hi]
  {
  }

  // A word of the line is left whole.
  lemma StringIntact(s: string, b: string, sps: set<Span>, sp: Span)
    requires |b| == |s| + 1 && sp in sps && (forall x :: x in sps ==> IsWord(s, x)) && forall k :: 0 <= k < |s| ==> s[k] != '\0'
    requires forall k :: 0 <= k < |s| ==> b[k] == if Ends(sps, k) then '\0' else s[k]
    requires b[|s|] == '\0'
    ensures CString(b, sp.lo) == Text(s, sp)
  {
    hide CString; hide IsWordChar; hide Ends;
    assert IsWord(s, sp);
    forall k | sp.lo <= k < sp.hi ensures b[k] == s[k] {
      NoEndInside(s, sps, sp, k);
    }
    SameSlice(s, b, sp.lo, sp.hi);
    EndsThere(sps, sp);
    CStringIs(b, sp.lo, sp.hi);
  }

  lemma EndsThere(sps: set<Span>, sp: Span)
    requires sp in sps
    ensures Ends(sps, sp.hi)
  {
  }

  /**
    parsecmd on a line in a buffer.  Either the grammar derives no tree for the line, or
    the tree is the one it derives, and every string it points to reads as its token.
   */
  method ParseCmdAt(buf: array<char>, len: nat) returns (r: Result)
    requires len < buf.Length == len + 1 && buf[len] == '\0' && forall k :: 0 <= k < len ==> buf[k] != '\0'
    modifies buf
    ensures var p := ParseCmd(Toks(old(buf[..len]), 0));
      && (r.Failed? <==> p.Panic?)
      && (r.Done? ==> TextOf(old(buf[..len]), r.cmd) == p.value)
    ensures r.Failed? ==> forall c :: !IsLine(Toks(old(buf[..len]), 0), c)
    ensures r.Done? ==> IsLine(Toks(old(buf[..len]), 0), TextOf(old(buf[..len]), r.cmd))
    ensures r.Done? ==> forall sp :: sp in SpansOf(r.cmd) ==> CString(buf[..], sp.lo) == Text(old(buf[..len]), sp)
  {
    hide Toks; hide TextOf; hide IsWord; hide ParseLine; hide SpansOf; hide IsLine;
    var s := buf[..len];
    Derived(Toks(s, 0));
    r := ParseLineAt(s, 0);
    if r.Failed? {
      return;
    }
    var any, j := Peek(s, r.at, "");
    if j != len {
      Leftovers(s, j);
      return Failed;
    }
    Leftovers(s, j);
    PlacedSpans(s, r.cmd);
    WordsFit(s, SpansOf(r.cmd));
    Nulterminate(r.cmd, buf);
    Terminated(s, buf[..], SpansOf(r.cmd));
  }

  lemma Derived(ts: seq<Tok<string>>)
    ensures ParseCmd(ts).Ok? ==> IsLine(ts, ParseCmd(ts).value)
    ensures ParseCmd(ts).Panic? ==> forall c :: !IsLine(ts, c)
  {
    hide IsLine; hide ParseCmd;
    if ParseCmd(ts).Ok? {
      AcceptsExactly(ts, ParseCmd(ts).value);
      assert ParseCmd(ts).rest == [];
    } else {
      forall c ensures !IsLine(ts, c) { AcceptsExactly(ts, c); }
    }
  }

  // peek has skipped white space: tokens are left exactly if characters are.
  lemma Leftovers(s: string, j: nat)
    requires j <= |s| && (Toks(s, j) == [] ==> j == |s|)
    ensures Toks(s, j) == [] <==> j == |s|
  {
  }

  lemma WordsFit(s: string, sps: set<Span>)
    requires forall sp :: sp in sps ==> IsWord(s, sp)
    ensures Fits(sps, |s| + 1)
  {
  }

  lemma Terminated(s: string, b: string, sps: set<Span>)
    requires |b| == |s| + 1 && (forall x :: x in sps ==> IsWord(s, x)) && forall k :: 0 <= k < |s| ==> s[k] != '\0'
    requires forall k :: 0 <= k < |b| ==> b[k] == if Ends(sps, k) then '\0' else (s + ['\0'])[k]
    ensures forall sp :: sp in sps ==> CString(b, sp.lo) == Text(s, sp)
  {
    forall sp | sp in sps ensures CString(b, sp.lo) == Text(s, sp) {
      StringIntact(s, b, sps, sp);
    }
  }

  // ---------------------------------------------------------------- printing a line

  predicate ProperWord(w: string) { w != [] && forall k :: 0 <= k < |w| ==> IsWordChar(w[k]) }

  predicate ProperToks(ts: seq<Tok<string>>) { forall i :: 0 <= i < |ts| ==> (ts[i].Word? ==> ProperWord(ts[i].w)) }

  function TokText(t: Tok<string>): (r: string)
    ensures t.Word? || (r != [] && IsSymbol(r[0]))
  {
    match t
    case Word(w) => w
    case Redirect(k) => if k.Input? then "<" else if k.Output? then ">" else ">>"
    case Bar => "|"
    case Open => "("
    case Close => ")"
    case Semi => ";"
    case Amp => "&"
  }

  /** The tokens as text, with a blank behind each. */
  function Render(ts: seq<Tok<string>>): string {
    if ts == [] then [] else TokText(ts[0]) + " " + Render(ts[1..])
  }

  lemma {:induction false} RenderToks(before: string, ts: seq<Tok<string>>)
    requires ProperToks(ts)
    ensures Toks(before + Render(ts), |before|) == ts
    decreases |ts|
  {
    hide TokText; hide Toks; hide ProperWord;
    var s, i := before + Render(ts), |before|;
    if ts == [] {
      NoToks(s, i);
    } else {
      var text, more := TokText(ts[0]), Render(ts[1..]);
      var before' := before + text + " ";
      assert s == before' + more;
      RenderToks(before', ts[1..]);
      assert s[i..i + |text|] == text && s[i + |text|] == ' ';
      FirstToken(s, i, ts[0]);
    }
  }

  lemma NoToks(s: string, i: nat)
    requires i == |s|
    ensures Toks(s, i) == []
  {
  }

  lemma FirstToken(s: string, i: nat, t: Tok<string>)
    requires t.Word? ==> ProperWord(t.w)
    requires i + |TokText(t)| < |s| && s[i..i + |TokText(t)|] == TokText(t) && s[i + |TokText(t)|] == ' '
    ensures Toks(s, i) == [t] + Toks(s, i + |TokText(t)| + 1)
  {
    hide TokenAt; hide TokText;
    var j := i + |TokText(t)|;
    OneToken(s, i, t);
    SkipOne(s, j);
    ToksSkip(s, j);
    ToksSkip(s, j + 1);
  }

  lemma SkipOne(s: string, i: nat)
    requires i < |s| && IsSpace(s[i])
    ensures SkipSpace(s, i) == SkipSpace(s, i + 1)
  {
  }

  // A token with a blank behind it, at position i.
  lemma OneToken(s: string, i: nat, t: Tok<string>)
    requires t.Word? ==> ProperWord(t.w)
    requires i + |TokText(t)| < |s| && s[i..i + |TokText(t)|] == TokText(t) && s[i + |TokText(t)|] == ' '
    ensures i < |s| && !IsSpace(s[i]) && TokenAt(s, i) == (t, i + |TokText(t)|)
  {
    var text := TokText(t);
    assert forall k :: 0 <= k < |text| ==> s[i + k] == text[k];
    if t.Word? {
      WordEndIs(s, i, i + |text|);
    }
  }

  lemma {:induction false} WordEndIs(s: string, i: nat, j: nat)
    requires i <= j < |s| && !IsWordChar(s[j]) && forall k :: i <= k < j ==> IsWordChar(s[k])
    ensures WordEnd(s, i) == j
    decreases j - i
  {
    if i < j {
      WordEndIs(s, i + 1, j);
    }
  }

  predicate ProperCmd(c: Cmd<string>) {
    match c
    case Exec(args) => forall i :: 0 <= i < |args| ==> ProperWord(args[i])
    case Redir(d, file, _) => ProperCmd(d) && ProperWord(file)
    case Pipe(l, r) => ProperCmd(l) && ProperCmd(r)
    case List(l, r) => ProperCmd(l) && ProperCmd(r)
    case Back(d) => ProperCmd(d)
  }

  /** The shell reads back every command with at most nine words each that is written out as a line. */
  lemma LineRoundTrip(c: Cmd<string>)
    requires FewArgs(c) && ProperCmd(c)
    ensures ParseCmd(Toks(Render(PrintLine(c)), 0)) == Ok(c, [])
  {
    ProperPrint(c);
    assert "" + Render(PrintLine(c)) == Render(PrintLine(c));
    RenderToks("", PrintLine(c));
    RoundTrip(c);
  }

  lemma {:induction false} ProperPrint(c: Cmd<string>)
    requires ProperCmd(c)
    ensures ProperToks(PrintExec(c)) && ProperToks(PrintPipe(c)) && ProperToks(PrintBacks(c)) && ProperToks(PrintLine(c))
  {
    hide ProperWord; hide ProperToks;
    match c
    case Exec(args) =>
      ProperWords(args);
      assert PrintLine(c) == PrintBacks(c) == PrintPipe(c) == PrintExec(c);
    case Redir(d, file, kind) =>
      ProperPrint(d);
      ProperJoin(PrintExec(d), [Redirect(kind), Word(file)], []);
      assert PrintLine(c) == PrintBacks(c) == PrintPipe(c) == PrintExec(c) == PrintExec(d) + [Redirect(kind), Word(file)] + [];
    case Pipe(l, r) =>
      ProperPrint(l);
      ProperPrint(r);
      ProperJoin(PrintExec(l), [Bar], PrintPipe(r));
      assert PrintLine(c) == PrintBacks(c) == PrintPipe(c);
      ProperJoin([Open], PrintLine(c), [Close]);
    case List(l, r) =>
      ProperPrint(l);
      ProperPrint(r);
      ProperJoin(PrintBacks(l), [Semi], PrintLine(r));
      ProperJoin([Open], PrintLine(c), [Close]);
      assert PrintBacks(c) == PrintPipe(c) == PrintExec(c);
    case Back(d) =>
      ProperPrint(d);
      ProperJoin(PrintBacks(d), [Amp], []);
      assert PrintLine(c) == PrintBacks(c) == PrintBacks(d) + [Amp] + [];
      ProperJoin([Open], PrintLine(c), [Close]);
      assert PrintPipe(c) == PrintExec(c);
  }

  lemma ProperWords(args: seq<string>)
    requires forall i :: 0 <= i < |args| ==> ProperWord(args[i])
    ensures ProperToks(Words(args))
  {
    hide ProperWord;
  }

  lemma ProperJoin(a: seq<Tok<string>>, b: seq<Tok<string>>, c: seq<Tok<string>>)
    requires (ProperToks(a) || a == [Open]) && (ProperToks(c) || c == [Close] || c == [])
    requires ProperToks(b) || b == [Bar] || b == [Semi] || b == [Amp] || (|b| == 2 && b[0].Redirect? && b[1].Word? && ProperWord(b[1].w))
    ensures ProperToks(a + b + c)
  {
    hide ProperWord;
  }
}
