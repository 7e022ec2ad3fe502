/**
  The grammar of user/sh.c on tokens: what its parser computes, which lines derive which
  command trees, the proof that the parser accepts exactly those, and a printer it undoes.
 */
module ShellGrammar {

  const MAXARGS: nat := 10

  /** '<', '>' and '>>': how a file is opened, and for which descriptor. */
  datatype Kind = Input | Output | Append

  datatype Cmd<W> =
    | Exec(args: seq<W>)
    | Redir(cmd: Cmd<W>, file: W, kind: Kind)
    | Pipe(left: Cmd<W>, right: Cmd<W>)
    | List(left: Cmd<W>, right: Cmd<W>)
    | Back(cmd: Cmd<W>)

  datatype Tok<W> = Word(w: W) | Bar | Open | Close | Semi | Amp | Redirect(kind: Kind)

  datatype Redirection<W> = Redirection(file: W, kind: Kind)

  /** What a parsing function returns: its result and the tokens left, or the shell's panic. */
  datatype Parsed<W, T> = Ok(value: T, rest: seq<Tok<W>>) | Panic

  // ---------------------------------------------------------------- parsing

  /** The command inside its redirections, the first one innermost. */
  function Wrap<W>(c: Cmd<W>, rs: seq<Redirection<W>>): (r: Cmd<W>)
    ensures FewArgs(r) <==> FewArgs(c)
  {
    if rs == [] then c
    else var r := rs[|rs| - 1]; Redir(Wrap(c, rs[..|rs| - 1]), r.file, r.kind)
  }

  // parseredirs
  function Redirs<W>(rs: seq<Redirection<W>>, ts: seq<Tok<W>>): (p: Parsed<W, seq<Redirection<W>>>)
    ensures p.Ok? ==> |p.rest| <= |ts|
    decreases |ts|
  {
    if ts == [] || !ts[0].Redirect? then Ok(rs, ts)
    else if |ts| < 2 || !ts[1].Word? then Panic  // missing file for redirection
    else Redirs(rs + [Redirection(ts[1].w, ts[0].kind)], ts[2..])
  }

  predicate EndsExec<W>(t: Tok<W>) { t.Bar? || t.Close? || t.Amp? || t.Semi? }

  // The loop of parseexec
  function Args<W>(args: seq<W>, rs: seq<Redirection<W>>, ts: seq<Tok<W>>): (p: Parsed<W, Cmd<W>>)
    requires |args| < MAXARGS
    ensures p.Ok? ==> |p.rest| <= |ts| && FewArgs(p.value)
    decreases |ts|
  {
    if ts == [] || EndsExec(ts[0]) then Ok(Wrap(Exec(args), rs), ts)
    else if !ts[0].Word? then Panic  // syntax
    else if |args| + 1 >= MAXARGS then Panic  // too many args
    else
      match Redirs(rs, ts[1..])
      case Panic => Panic
      case Ok(rs', rest) => Args(args + [ts[0].w], rs', rest)
  }

  // parseexec and parseblock
  function ParseExec<W>(ts: seq<Tok<W>>): (p: Parsed<W, Cmd<W>>)
    ensures p.Ok? ==> |p.rest| <= |ts| && FewArgs(p.value)
    decreases |ts|, 0
  {
    if ts != [] && ts[0].Open? then
      match ParseLine(ts[1..])
      case Panic => Panic
      case Ok(c, r) =>
        if r == [] || !r[0].Close? then Panic  // missing )
        else match Redirs([], r[1..])
          case Panic => Panic
          case Ok(rs, rest) => Ok(Wrap(c, rs), rest)
    else
      match Redirs([], ts)
      case Panic => Panic
      case Ok(rs, rest) => Args([], rs, rest)
  }

  // parsepipe
  function ParsePipe<W>(ts: seq<Tok<W>>): (p: Parsed<W, Cmd<W>>)
    ensures p.Ok? ==> |p.rest| <= |ts| && FewArgs(p.value)
    decreases |ts|, 1
  {
    match ParseExec(ts)
    case Panic => Panic
    case Ok(c, r) =>
      if r == [] || !r[0].Bar? then Ok(c, r)
      else match ParsePipe(r[1..])
        case Panic => Panic
        case Ok(d, rest) => Ok(Pipe(c, d), rest)
  }

  // The loop of parseline
  function Backs<W>(c: Cmd<W>, ts: seq<Tok<W>>): (r: (Cmd<W>, seq<Tok<W>>))
    ensures |r.1| <= |ts| && (r.1 == [] || !r.1[0].Amp?) && (FewArgs(r.0) <==> FewArgs(c))
    decreases |ts|
  {
    if ts == [] || !ts[0].Amp? then (c, ts) else Backs(Back(c), ts[1..])
  }

  // parseline
  function ParseLine<W>(ts: seq<Tok<W>>): (p: Parsed<W, Cmd<W>>)
    ensures p.Ok? ==> |p.rest| <= |ts| && FewArgs(p.value)
    decreases |ts|, 2
  {
    match ParsePipe(ts)
    case Panic => Panic
    case Ok(c0, r0) =>
      var (c, r) := Backs(c0, r0);
      if r == [] || !r[0].Semi? then Ok(c, r)
      else match ParseLine(r[1..])
        case Panic => Panic
        case Ok(d, rest) => Ok(List(c, d), rest)
  }

  /** parsecmd: all tokens must be used up. */
  function ParseCmd<W>(ts: seq<Tok<W>>): (p: Parsed<W, Cmd<W>>)
    ensures p.Ok? ==> p.rest == [] && FewArgs(p.value)
  {
    match ParseLine(ts)
    case Panic => Panic
    case Ok(c, r) => if r == [] then Ok(c, []) else Panic  // leftovers
  }

  /** No command has more words than the shell takes. */
  predicate FewArgs<W>(c: Cmd<W>) {
    match c
    case Exec(args) => |args| < MAXARGS
    case Redir(d, _, _) => FewArgs(d)
    case Pipe(l, r) => FewArgs(l) && FewArgs(r)
    case List(l, r) => FewArgs(l) && FewArgs(r)
    case Back(d) => FewArgs(d)
  }

  // ---------------------------------------------------------------- the grammar

  // Words and redirections in any order.
  predicate Plain<W>(ts: seq<Tok<W>>) {
    ts == [] || (ts[0].Word? && Plain(ts[1..])) || (ts[0].Redirect? && |ts| > 1 && ts[1].Word? && Plain(ts[2..]))
  }

  function WordsOf<W>(ts: seq<Tok<W>>): seq<W>
    requires Plain(ts)
  {
    if ts == [] then [] else if ts[0].Word? then [ts[0].w] + WordsOf(ts[1..]) else WordsOf(ts[2..])
  }

  function RedirectionsOf<W>(ts: seq<Tok<W>>): seq<Redirection<W>>
    requires Plain(ts)
  {
    if ts == [] then [] else if ts[0].Word? then RedirectionsOf(ts[1..])
    else [Redirection(ts[1].w, ts[0].kind)] + RedirectionsOf(ts[2..])
  }

  // block ::= '(' line ')'  |  block redirection
  ghost predicate IsBlock<W>(ts: seq<Tok<W>>, c: Cmd<W>)
    decreases |ts|, 0
  {
    var n := |ts|;
    || (n >= 2 && ts[0].Open? && ts[n - 1].Close? && IsLine(ts[1..n - 1], c))
    || (n >= 2 && c.Redir? && ts[n - 2] == Redirect(c.kind) && ts[n - 1] == Word(c.file) && IsBlock(ts[..n - 2], c.cmd))
  }

  // exec ::= block  |  ( word | redirection )*
  ghost predicate IsExec<W>(ts: seq<Tok<W>>, c: Cmd<W>)
    decreases |ts|, 1
  {
    IsBlock(ts, c) || (Plain(ts) && |WordsOf(ts)| < MAXARGS && c == Wrap(Exec(WordsOf(ts)), RedirectionsOf(ts)))
  }

  // pipe ::= exec  |  exec '|' pipe
  ghost predicate IsPipe<W>(ts: seq<Tok<W>>, c: Cmd<W>)
    decreases |ts|, 2
  {
    IsExec(ts, c) || (c.Pipe? && exists k :: 0 <= k < |ts| && ts[k].Bar? && IsExec(ts[..k], c.left) && IsPipe(ts[k + 1..], c.right))
  }

  // backs ::= pipe  |  backs '&'
  ghost predicate IsBacks<W>(ts: seq<Tok<W>>, c: Cmd<W>)
    decreases |ts|, 3
  {
    var n := |ts|;
    IsPipe(ts, c) || (n > 0 && c.Back? && ts[n - 1].Amp? && IsBacks(ts[..n - 1], c.cmd))
  }

  /** The tokens derive the command: line ::= backs  |  backs ';' line */
  ghost predicate IsLine<W>(ts: seq<Tok<W>>, c: Cmd<W>)
    decreases |ts|, 4
  {
    IsBacks(ts, c) || (c.List? && exists k :: 0 <= k < |ts| && ts[k].Semi? && IsBacks(ts[..k], c.left) && IsLine(ts[k + 1..], c.right))
  }

  // ---------------------------------------------------------------- what the parser accepts is derived

  // parseexec without a block: redirections, then the loop.
  function Simple<W>(args: seq<W>, rs: seq<Redirection<W>>, ts: seq<Tok<W>>): (p: Parsed<W, Cmd<W>>)
    requires |args| < MAXARGS
  {
    match Redirs(rs, ts)
    case Panic => Panic
    case Ok(rs', rest) => Args(args, rs', rest)
  }

  lemma SimpleEnd<W>(args: seq<W>, rs: seq<Redirection<W>>, ts: seq<Tok<W>>)
    requires |args| < MAXARGS && (ts == [] || EndsExec(ts[0]))
    ensures Simple(args, rs, ts) == Ok(Wrap(Exec(args), rs), ts)
  {
  }

  lemma SimpleWord<W>(args: seq<W>, rs: seq<Redirection<W>>, w: W, ts: seq<Tok<W>>)
    requires |args| < MAXARGS
    ensures Simple(args, rs, [Word(w)] + ts) == if |args| + 1 < MAXARGS then Simple(args + [w], rs, ts) else Panic
  {
    assert ([Word(w)] + ts)[1..] == ts;
  }

  lemma SimpleRedirection<W>(args: seq<W>, rs: seq<Redirection<W>>, r: Redirection<W>, ts: seq<Tok<W>>)
    requires |args| < MAXARGS
    ensures Simple(args, rs, [Redirect(r.kind), Word(r.file)] + ts) == Simple(args, rs + [r], ts)
  {
    hide Args;
    assert ([Redirect(r.kind), Word(r.file)] + ts)[2..] == ts;
  }

  lemma SimplePanics<W>(args: seq<W>, rs: seq<Redirection<W>>, ts: seq<Tok<W>>)
    requires |args| < MAXARGS && ts != [] && !EndsExec(ts[0]) && !ts[0].Word? && !(|ts| > 1 && ts[0].Redirect? && ts[1].Word?)
    ensures Simple(args, rs, ts) == Panic
  {
  }

  lemma WordFirst<W>(w: W, ts: seq<Tok<W>>)
    requires Plain(ts)
    ensures var all := [Word(w)] + ts; Plain(all) && WordsOf(all) == [w] + WordsOf(ts) && RedirectionsOf(all) == RedirectionsOf(ts)
  {
    assert ([Word(w)] + ts)[1..] == ts;
  }

  lemma RedirectionFirst<W>(r: Redirection<W>, ts: seq<Tok<W>>)
    requires Plain(ts)
    ensures var all := [Redirect(r.kind), Word(r.file)] + ts;
      Plain(all) && WordsOf(all) == WordsOf(ts) && RedirectionsOf(all) == [r] + RedirectionsOf(ts)
  {
    assert ([Redirect(r.kind), Word(r.file)] + ts)[2..] == ts;
  }

  lemma {:induction false} SimpleSound<W>(args: seq<W>, rs: seq<Redirection<W>>, ts: seq<Tok<W>>) returns (read: seq<Tok<W>>)
    requires |args| < MAXARGS && Simple(args, rs, ts).Ok?
    ensures var p := Simple(args, rs, ts);
      && ts == read + p.rest && Plain(read) && |args + WordsOf(read)| < MAXARGS
      && p.value == Wrap(Exec(args + WordsOf(read)), rs + RedirectionsOf(read))
    decreases |ts|
  {
    hide Wrap; hide Simple; hide Plain; hide WordsOf; hide RedirectionsOf;
    if ts == [] || EndsExec(ts[0]) {
      SimpleEnd(args, rs, ts);
      read := [];
      JustWords<W>([]);
      assert Words<W>([]) == [] && args + [] == args && rs + [] == rs;
    } else if ts[0].Word? {
      var w := ts[0].w;
      assert ts == [Word(w)] + ts[1..];
      SimpleWord(args, rs, w, ts[1..]);
      var more := SimpleSound(args + [w], rs, ts[1..]);
      read := [Word(w)] + more;
      WordFirst(w, more);
      assert args + [w] + WordsOf(more) == args + WordsOf(read);
    } else if |ts| > 1 && ts[0].Redirect? && ts[1].Word? {
      var r := Redirection(ts[1].w, ts[0].kind);
      assert ts == [Redirect(r.kind), Word(r.file)] + ts[2..];
      SimpleRedirection(args, rs, r, ts[2..]);
      var more := SimpleSound(args, rs + [r], ts[2..]);
      read := [Redirect(r.kind), Word(r.file)] + more;
      RedirectionFirst(r, more);
      assert rs + [r] + RedirectionsOf(more) == rs + RedirectionsOf(read);
    } else {
      SimplePanics(args, rs, ts);
    }
  }

  lemma RedirsStep<W>(rs: seq<Redirection<W>>, ts: seq<Tok<W>>) returns (r: Redirection<W>, rest: seq<Tok<W>>)
    requires !NoRedirect(ts) && Redirs(rs, ts).Ok?
    ensures ts == [Redirect(r.kind), Word(r.file)] + rest && Redirs(rs, ts) == Redirs(rs + [r], rest)
  {
    r, rest := Redirection(ts[1].w, ts[0].kind), ts[2..];
  }

  lemma RedirsEnd<W>(rs: seq<Redirection<W>>, ts: seq<Tok<W>>)
    requires NoRedirect(ts)
    ensures Redirs(rs, ts) == Ok(rs, ts)
  {
  }

  lemma {:induction false} RedirsSound<W>(before: seq<Tok<W>>, b: Cmd<W>, rs: seq<Redirection<W>>, ts: seq<Tok<W>>) returns (read: seq<Tok<W>>)
    requires IsBlock(before, Wrap(b, rs)) && Redirs(rs, ts).Ok?
    ensures var p := Redirs(rs, ts); ts == read + p.rest && IsBlock(before + read, Wrap(b, p.value))
    decreases |ts|
  {
    hide IsBlock; hide Wrap; hide Redirs;
    if NoRedirect(ts) {
      RedirsEnd(rs, ts);
      read := [];
      assert before + read == before && read + ts == ts;
    } else {
      var r, rest := RedirsStep(rs, ts);
      var one := [Redirect(r.kind), Word(r.file)];
      BlockAndOne(before, b, rs, r);
      var more := RedirsSound(before + one, b, rs + [r], rest);
      read := one + more;
      assert before + read == before + one + more;
    }
  }

  lemma BlockAndOne<W>(before: seq<Tok<W>>, b: Cmd<W>, rs: seq<Redirection<W>>, r: Redirection<W>)
    requires IsBlock(before, Wrap(b, rs))
    ensures IsBlock(before + [Redirect(r.kind), Word(r.file)], Wrap(b, rs + [r]))
  {
    hide IsLine;
    var ts := before + [Redirect(r.kind), Word(r.file)];
    assert ts[..|ts| - 2] == before && (rs + [r])[..|rs|] == rs;
  }

  lemma NothingWrapped<W>(c: Cmd<W>)
    ensures Wrap(c, []) == c
  {
  }

  lemma InParentheses<W>(line: seq<Tok<W>>, c: Cmd<W>)
    requires IsLine(line, c)
    ensures IsBlock([Open] + line + [Close], c)
  {
    hide IsLine;
    var ts := [Open] + line + [Close];
    assert ts[1..|ts| - 1] == line;
  }

  lemma {:induction false} ExecSound<W>(ts: seq<Tok<W>>) returns (read: seq<Tok<W>>)
    requires ParseExec(ts).Ok?
    ensures var p := ParseExec(ts); ts == read + p.rest && IsExec(read, p.value)
    decreases |ts|, 0
  {
    hide IsLine; hide Args; hide Redirs; hide Wrap; hide ParseLine; hide Plain; hide IsBlock;
    if ts != [] && ts[0].Open? {
      var line := LineSound(ts[1..]);
      var q := ParseLine(ts[1..]);
      var before := [Open] + line + [Close];
      InParentheses(line, q.value);
      NothingWrapped(q.value);
      var more := RedirsSound(before, q.value, [], q.rest[1..]);
      read := before + more;
      assert ts == [Open] + ts[1..] && q.rest == [Close] + q.rest[1..];
      assert ts == before + q.rest[1..];
    } else {
      read := SimpleSound([], [], ts);
      assert [] + WordsOf(read) == WordsOf(read) && [] + RedirectionsOf(read) == RedirectionsOf(read);
    }
  }

  lemma PipeOf<W>(ts: seq<Tok<W>>, c: Cmd<W>, ts': seq<Tok<W>>, d: Cmd<W>)
    requires IsExec(ts, c) && IsPipe(ts', d)
    ensures IsPipe(ts + [Bar] + ts', Pipe(c, d))
  {
    hide IsExec;
    var all, k := ts + [Bar] + ts', |ts|;
    assert all[..k] == ts && all[k].Bar? && all[k + 1..] == ts';
  }

  lemma {:induction false} PipeSound<W>(ts: seq<Tok<W>>) returns (read: seq<Tok<W>>)
    requires ParsePipe(ts).Ok?
    ensures var p := ParsePipe(ts); ts == read + p.rest && IsPipe(read, p.value)
    decreases |ts|, 1
  {
    hide IsExec; hide ParseExec;
    read := ExecSound(ts);
    var q := ParseExec(ts);
    if q.rest != [] && q.rest[0].Bar? {
      var more := PipeSound(q.rest[1..]);
      PipeOf(read, q.value, more, ParsePipe(q.rest[1..]).value);
      assert q.rest == [Bar] + q.rest[1..];
      read := read + [Bar] + more;
    }
  }

  lemma {:induction false} BacksSound<W>(before: seq<Tok<W>>, c: Cmd<W>, ts: seq<Tok<W>>) returns (read: seq<Tok<W>>)
    requires IsBacks(before, c)
    ensures var (d, rest) := Backs(c, ts); ts == read + rest && IsBacks(before + read, d)
    decreases |ts|
  {
    hide IsPipe;
    read := [];
    if ts == [] || !ts[0].Amp? {
      assert before + read == before;
    } else {
      var more := before + [Amp];
      assert more[..|more| - 1] == before;
      read := BacksSound(more, Back(c), ts[1..]);
      assert ts == [Amp] + ts[1..] && before + ([Amp] + read) == more + read;
      read := [Amp] + read;
    }
  }

  lemma LineOf<W>(ts: seq<Tok<W>>, c: Cmd<W>, ts': seq<Tok<W>>, d: Cmd<W>)
    requires IsBacks(ts, c) && IsLine(ts', d)
    ensures IsLine(ts + [Semi] + ts', List(c, d))
  {
    hide IsBacks;
    var all, k := ts + [Semi] + ts', |ts|;
    assert all[..k] == ts && all[k].Semi? && all[k + 1..] == ts';
  }

  lemma {:induction false} LineSound<W>(ts: seq<Tok<W>>) returns (read: seq<Tok<W>>)
    requires ParseLine(ts).Ok?
    ensures var p := ParseLine(ts); ts == read + p.rest && IsLine(read, p.value)
    decreases |ts|, 2
  {
    hide IsPipe; hide ParsePipe; hide Backs;
    read := PipeSound(ts);
    var q := ParsePipe(ts);
    var amps := BacksSound(read, q.value, q.rest);
    read := read + amps;
    var (c, r) := Backs(q.value, q.rest);
    if r != [] && r[0].Semi? {
      var more := LineSound(r[1..]);
      LineOf(read, c, more, ParseLine(r[1..]).value);
      assert r == [Semi] + r[1..];
      read := read + [Semi] + more;
    }
  }

  // ---------------------------------------------------------------- what is derived the parser accepts

  function ChainToks<W>(rs: seq<Redirection<W>>): seq<Tok<W>> {
    if rs == [] then [] else ChainToks(rs[..|rs| - 1]) + [Redirect(rs[|rs| - 1].kind), Word(rs[|rs| - 1].file)]
  }

  predicate NoRedirect<W>(ts: seq<Tok<W>>) { ts == [] || !ts[0].Redirect? }

  lemma {:induction false} ChainFirst<W>(rs: seq<Redirection<W>>)
    requires rs != []
    ensures ChainToks(rs) == [Redirect(rs[0].kind), Word(rs[0].file)] + ChainToks(rs[1..])
  {
    var n := |rs| - 1;
    if n > 0 {
      ChainFirst(rs[..n]);
      assert rs[..n][1..] == rs[1..][..n - 1];
      assert rs[1..][n - 1] == rs[n];
    } else {
      assert rs[..0] == [] && rs[1..] == [];
    }
  }

  lemma NoChain<W>()
    ensures ChainToks<W>([]) == []
  {
  }

  lemma {:induction false} RedirsBack<W>(done: seq<Redirection<W>>, rs: seq<Redirection<W>>, rest: seq<Tok<W>>)
    requires NoRedirect(rest)
    ensures Redirs(done, ChainToks(rs) + rest) == Ok(done + rs, rest)
    decreases |rs|
  {
    hide ChainToks;
    if rs == [] {
      NoChain<W>();
      assert [] + rest == rest && done + rs == done;
    } else {
      ChainFirst(rs);
      var more := ChainToks(rs[1..]) + rest;
      var ts := [Redirect(rs[0].kind), Word(rs[0].file)] + more;
      assert ts == ChainToks(rs) + rest && ts[2..] == more;
      RedirsBack(done + [rs[0]], rs[1..], rest);
      assert done + [rs[0]] + rs[1..] == done + rs;
    }
  }

  lemma BlockBack<W>(b: Cmd<W>, line: seq<Tok<W>>, rs: seq<Redirection<W>>, rest: seq<Tok<W>>)
    requires NoRedirect(rest)
    requires ParseLine(line + ([Close] + ChainToks(rs) + rest)) == Ok(b, [Close] + ChainToks(rs) + rest)
    ensures ParseExec([Open] + (line + ([Close] + ChainToks(rs) + rest))) == Ok(Wrap(b, rs), rest)
  {
    hide ParseLine; hide ChainToks; hide Redirs; hide Wrap;
    var more := [Close] + ChainToks(rs) + rest;
    var ts := [Open] + (line + more);
    assert ts[1..] == line + more && more[1..] == ChainToks(rs) + rest;
    RedirsBack([], rs, rest);
    assert [] + rs == rs;
  }

  lemma {:induction false} SimpleBack<W>(args: seq<W>, rs: seq<Redirection<W>>, ts: seq<Tok<W>>, rest: seq<Tok<W>>)
    requires Plain(ts) && |args| + |WordsOf(ts)| < MAXARGS && (rest == [] || EndsExec(rest[0]))
    ensures Simple(args, rs, ts + rest) == Ok(Wrap(Exec(args + WordsOf(ts)), rs + RedirectionsOf(ts)), rest)
    decreases |ts|
  {
    hide Wrap; hide Simple;
    if ts == [] {
      SimpleEnd(args, rs, rest);
      assert ts + rest == rest && args + [] == args && rs + [] == rs;
    } else if ts[0].Word? {
      var w := ts[0].w;
      SimpleWord(args, rs, w, ts[1..] + rest);
      assert ts + rest == [Word(w)] + (ts[1..] + rest);
      SimpleBack(args + [w], rs, ts[1..], rest);
      assert args + [w] + WordsOf(ts[1..]) == args + WordsOf(ts);
    } else {
      var r := Redirection(ts[1].w, ts[0].kind);
      SimpleRedirection(args, rs, r, ts[2..] + rest);
      assert ts + rest == [Redirect(r.kind), Word(r.file)] + (ts[2..] + rest);
      SimpleBack(args, rs + [r], ts[2..], rest);
      assert rs + [r] + RedirectionsOf(ts[2..]) == rs + RedirectionsOf(ts);
    }
  }

  lemma {:induction false} Unblock<W>(ts: seq<Tok<W>>, c: Cmd<W>) returns (line: seq<Tok<W>>, b: Cmd<W>, rs: seq<Redirection<W>>)
    requires IsBlock(ts, c)
    ensures ts == [Open] + line + [Close] + ChainToks(rs) && c == Wrap(b, rs) && IsLine(line, b)
    decreases |ts|
  {
    hide IsLine;
    var n := |ts|;
    if ts[0].Open? && ts[n - 1].Close? && IsLine(ts[1..n - 1], c) {
      line, b, rs := ts[1..n - 1], c, [];
    } else {
      var ss;
      line, b, ss := Unblock(ts[..n - 2], c.cmd);
      rs := ss + [Redirection(c.file, c.kind)];
      assert rs[..|rs| - 1] == ss;
      assert ts == ts[..n - 2] + [Redirect(c.kind), Word(c.file)];
    }
  }

  lemma {:induction false} ExecBack<W>(ts: seq<Tok<W>>, c: Cmd<W>, rest: seq<Tok<W>>)
    requires IsExec(ts, c) && (rest == [] || EndsExec(rest[0]))
    ensures ParseExec(ts + rest) == Ok(c, rest)
    decreases |ts|, 1
  {
    hide IsLine; hide ParseLine; hide Wrap; hide ChainToks; hide IsBlock; hide Args; hide Redirs;
    if IsBlock(ts, c) {
      var line, b, rs := Unblock(ts, c);
      var more := [Close] + ChainToks(rs) + rest;
      LineBack(line, b, more);
      BlockBack(b, line, rs, rest);
      assert ts + rest == [Open] + (line + more);
    } else {
      SimpleBack([], [], ts, rest);
      assert [] + WordsOf(ts) == WordsOf(ts) && [] + RedirectionsOf(ts) == RedirectionsOf(ts);
    }
  }

  lemma PipeParts<W>(ts: seq<Tok<W>>, c: Cmd<W>) returns (l: seq<Tok<W>>, r: seq<Tok<W>>)
    requires IsPipe(ts, c) && !IsExec(ts, c)
    ensures c.Pipe? && ts == l + [Bar] + r && IsExec(l, c.left) && IsPipe(r, c.right)
  {
    hide IsExec;
    var k :| 0 <= k < |ts| && ts[k].Bar? && IsExec(ts[..k], c.left) && IsPipe(ts[k + 1..], c.right);
    l, r := ts[..k], ts[k + 1..];
  }

  lemma PipeGoesOn<W>(ts: seq<Tok<W>>, c: Cmd<W>, more: seq<Tok<W>>)
    requires ParseExec(ts) == Ok(c, [Bar] + more)
    ensures ParsePipe(ts) == match ParsePipe(more) case Panic => Panic case Ok(d, rest) => Ok(Pipe(c, d), rest)
  {
    hide ParseExec;
    assert ([Bar] + more)[1..] == more;
  }

  lemma {:induction false} PipeBack<W>(ts: seq<Tok<W>>, c: Cmd<W>, rest: seq<Tok<W>>)
    requires IsPipe(ts, c) && (rest == [] || rest[0].Close? || rest[0].Amp? || rest[0].Semi?)
    ensures ParsePipe(ts + rest) == Ok(c, rest)
    decreases |ts|, 2
  {
    hide IsExec; hide IsPipe; hide ParseExec;
    if IsExec(ts, c) {
      ExecBack(ts, c, rest);
    } else {
      hide ParsePipe;
      var l, r := PipeParts(ts, c);
      ExecBack(l, c.left, [Bar] + (r + rest));
      PipeGoesOn(l + ([Bar] + (r + rest)), c.left, r + rest);
      PipeBack(r, c.right, rest);
      assert ts + rest == l + ([Bar] + (r + rest));
    }
  }

  lemma {:induction false} BacksBack<W>(ts: seq<Tok<W>>, c: Cmd<W>, rest: seq<Tok<W>>)
    requires IsBacks(ts, c) && (rest == [] || rest[0].Close? || rest[0].Amp? || rest[0].Semi?)
    ensures var p := ParsePipe(ts + rest); p.Ok? && Backs(p.value, p.rest) == Backs(c, rest)
    decreases |ts|, 3
  {
    hide IsPipe; hide ParsePipe;
    if IsPipe(ts, c) {
      PipeBack(ts, c, rest);
    } else {
      var n := |ts| - 1;
      assert ts + rest == ts[..n] + ([Amp] + rest);
      BacksBack(ts[..n], c.cmd, [Amp] + rest);
    }
  }

  lemma LineParts<W>(ts: seq<Tok<W>>, c: Cmd<W>) returns (l: seq<Tok<W>>, r: seq<Tok<W>>)
    requires IsLine(ts, c) && !IsBacks(ts, c)
    ensures c.List? && ts == l + [Semi] + r && IsBacks(l, c.left) && IsLine(r, c.right)
  {
    hide IsBacks;
    var k :| 0 <= k < |ts| && ts[k].Semi? && IsBacks(ts[..k], c.left) && IsLine(ts[k + 1..], c.right);
    l, r := ts[..k], ts[k + 1..];
  }

  lemma LineGoesOn<W>(ts: seq<Tok<W>>, c: Cmd<W>, more: seq<Tok<W>>)
    requires var p := ParsePipe(ts); p.Ok? && Backs(p.value, p.rest) == (c, [Semi] + more)
    ensures ParseLine(ts) == match ParseLine(more) case Panic => Panic case Ok(d, rest) => Ok(List(c, d), rest)
  {
    hide ParsePipe; hide Backs;
    assert ([Semi] + more)[1..] == more;
  }

  lemma LineEnds<W>(ts: seq<Tok<W>>, c: Cmd<W>, rest: seq<Tok<W>>)
    requires var p := ParsePipe(ts); p.Ok? && Backs(p.value, p.rest) == (c, rest) && (rest == [] || !rest[0].Semi?)
    ensures ParseLine(ts) == Ok(c, rest)
  {
    hide ParsePipe; hide Backs;
  }

  lemma NoMoreBacks<W>(c: Cmd<W>, ts: seq<Tok<W>>)
    requires ts == [] || !ts[0].Amp?
    ensures Backs(c, ts) == (c, ts)
  {
  }

  lemma {:induction false} LineBack<W>(ts: seq<Tok<W>>, c: Cmd<W>, rest: seq<Tok<W>>)
    requires IsLine(ts, c) && (rest == [] || rest[0].Close?)
    ensures ParseLine(ts + rest) == Ok(c, rest)
    decreases |ts|, 4
  {
    hide IsBacks; hide IsLine; hide ParsePipe; hide ParseLine; hide Backs;
    if IsBacks(ts, c) {
      BacksBack(ts, c, rest);
      NoMoreBacks(c, rest);
      LineEnds(ts + rest, c, rest);
    } else {
      var l, r := LineParts(ts, c);
      var more := [Semi] + (r + rest);
      BacksBack(l, c.left, more);
      NoMoreBacks(c.left, more);
      LineGoesOn(l + more, c.left, r + rest);
      LineBack(r, c.right, rest);
      assert ts + rest == l + more;
    }
  }

  /** The parser accepts a line exactly if the grammar derives it, and returns the tree derived. */
  lemma AcceptsExactly<W>(ts: seq<Tok<W>>, c: Cmd<W>)
    ensures ParseCmd(ts) == Ok(c, []) <==> IsLine(ts, c)
  {
    hide IsLine; hide ParseLine;
    if IsLine(ts, c) {
      LineBack(ts, c, []);
      assert ts + [] == ts;
    }
    if ParseCmd(ts) == Ok(c, []) {
      var read := LineSound(ts);
      assert read + [] == read;
    }
  }

  /** No line has two trees. */
  lemma Unambiguous<W>(ts: seq<Tok<W>>, c: Cmd<W>, d: Cmd<W>)
    requires IsLine(ts, c) && IsLine(ts, d)
    ensures c == d
  {
    hide IsLine; hide ParseCmd;
    AcceptsExactly(ts, c);
    AcceptsExactly(ts, d);
  }

  // ---------------------------------------------------------------- printing

  function Words<W>(ws: seq<W>): (r: seq<Tok<W>>)
    ensures |r| == |ws| && forall i :: 0 <= i < |ws| ==> r[i] == Word(ws[i])
  {
    seq(|ws|, i requires 0 <= i < |ws| => Word(ws[i]))
  }

  // The printers follow the levels of the grammar; what does not fit a level goes into parentheses.

  function PrintExec<W>(c: Cmd<W>): (r: seq<Tok<W>>)
    decreases c, if c.Exec? || c.Redir? then 1 else 5
  {
    match c
    case Exec(args) => Words(args)
    case Redir(d, file, kind) => PrintExec(d) + [Redirect(kind), Word(file)]
    case _ => [Open] + PrintLine(c) + [Close]
  }

  function PrintPipe<W>(c: Cmd<W>): seq<Tok<W>>
    decreases c, if c.Back? || c.List? then 6 else 2
  {
    if c.Pipe? then PrintExec(c.left) + [Bar] + PrintPipe(c.right) else PrintExec(c)
  }

  function PrintBacks<W>(c: Cmd<W>): seq<Tok<W>>
    decreases c, if c.List? then 7 else 3
  {
    if c.Back? then PrintBacks(c.cmd) + [Amp] else PrintPipe(c)
  }

  /** A command line for c. */
  function PrintLine<W>(c: Cmd<W>): seq<Tok<W>>
    decreases c, 4
  {
    if c.List? then PrintBacks(c.left) + [Semi] + PrintLine(c.right) else PrintBacks(c)
  }

  // ---------------------------------------------------------------- parsing undoes printing

  lemma {:induction false} JustWords<W>(ws: seq<W>)
    ensures Plain(Words(ws)) && WordsOf(Words(ws)) == ws && RedirectionsOf(Words(ws)) == []
  {
    if ws != [] {
      JustWords(ws[1..]);
      assert Words(ws)[1..] == Words(ws[1..]);
      assert [ws[0]] + ws[1..] == ws;
    }
  }

  lemma {:induction false} PlainAndOne<W>(ts: seq<Tok<W>>, r: Redirection<W>)
    requires Plain(ts)
    ensures var all := ts + [Redirect(r.kind), Word(r.file)];
      Plain(all) && WordsOf(all) == WordsOf(ts) && RedirectionsOf(all) == RedirectionsOf(ts) + [r]
    decreases |ts|
  {
    var one := [Redirect(r.kind), Word(r.file)];
    var all := ts + one;
    if ts == [] {
      assert all == one && one[2..] == [];
    } else {
      var n := if ts[0].Word? then 1 else 2;
      assert all[n..] == ts[n..] + one;
      PlainAndOne(ts[n..], r);
    }
  }

  lemma ExecAndOne<W>(ts: seq<Tok<W>>, c: Cmd<W>, r: Redirection<W>)
    requires IsExec(ts, c)
    ensures IsExec(ts + [Redirect(r.kind), Word(r.file)], Redir(c, r.file, r.kind))
  {
    hide IsLine; hide Plain; hide WordsOf; hide RedirectionsOf;
    var all := ts + [Redirect(r.kind), Word(r.file)];
    if IsBlock(ts, c) {
      assert all[..|all| - 2] == ts;
    } else {
      PlainAndOne(ts, r);
      var rs := RedirectionsOf(ts);
      assert (rs + [r])[..|rs|] == rs;
    }
  }

  lemma {:induction false} PrintedExec<W>(c: Cmd<W>)
    requires FewArgs(c)
    ensures IsExec(PrintExec(c), c)
    decreases c, if c.Exec? || c.Redir? then 1 else 5
  {
    hide IsLine; hide PrintLine; hide Words; hide Plain; hide WordsOf; hide RedirectionsOf;
    match c
    case Exec(args) => JustWords(args); NothingWrapped(c);
    case Redir(d, file, kind) =>
      PrintedExec(d);
      ExecAndOne(PrintExec(d), d, Redirection(file, kind));
    case _ =>
      PrintedLine(c);
      InParentheses(PrintLine(c), c);
  }

  lemma {:induction false} PrintedPipe<W>(c: Cmd<W>)
    requires FewArgs(c)
    ensures IsPipe(PrintPipe(c), c)
    decreases c, if c.Back? || c.List? then 6 else 2
  {
    hide IsExec; hide PrintExec;
    if c.Pipe? {
      PrintedExec(c.left);
      PrintedPipe(c.right);
      PipeOf(PrintExec(c.left), c.left, PrintPipe(c.right), c.right);
    } else {
      PrintedExec(c);
    }
  }

  lemma {:induction false} PrintedBacks<W>(c: Cmd<W>)
    requires FewArgs(c)
    ensures IsBacks(PrintBacks(c), c)
    decreases c, if c.List? then 7 else 3
  {
    hide IsPipe; hide PrintPipe;
    if c.Back? {
      PrintedBacks(c.cmd);
      var ts := PrintBacks(c);
      assert ts[..|ts| - 1] == PrintBacks(c.cmd);
    } else {
      PrintedPipe(c);
    }
  }

  lemma {:induction false} PrintedLine<W>(c: Cmd<W>)
    requires FewArgs(c)
    ensures IsLine(PrintLine(c), c)
    decreases c, 4
  {
    hide IsBacks; hide PrintBacks;
    if c.List? {
      PrintedBacks(c.left);
      PrintedLine(c.right);
      LineOf(PrintBacks(c.left), c.left, PrintLine(c.right), c.right);
    } else {
      PrintedBacks(c);
    }
  }

  /** Parsing what was printed gives the same command. */
  lemma RoundTrip<W>(c: Cmd<W>)
    requires FewArgs(c)
    ensures ParseCmd(PrintLine(c)) == Ok(c, [])
  {
    hide IsLine; hide ParseCmd;
    PrintedLine(c);
    AcceptsExactly(PrintLine(c), c);
  }
}
