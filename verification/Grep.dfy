/**
  user/grep.c: a backtracking matcher for ^ . * $ and the loop that reads lines.

  C strings are sequences; moving a pointer forward drops characters.
 */
module Grep {

  // ---------------------------------------------------------------- the language of a pattern

  /** One character of a pattern, or its repetition. */
  datatype Item = Item(c: char, star: bool)

  /** A pattern: anchored at the start, the items, anchored at the end. */
  datatype Pattern = Pattern(start: bool, items: seq<Item>, end: bool)

  function Parse(re: string): Pattern {
    if re != [] && re[0] == '^' then ParseHere(re[1..]).(start := true) else ParseHere(re)
  }

  // A '*' after a character repeats it; a '$' counts as an anchor only at the very end.
  function ParseHere(re: string): Pattern {
    if re == [] then Pattern(false, [], false)
    else if |re| > 1 && re[1] == '*' then
      var rest := ParseHere(re[2..]); Pattern(false, [Item(re[0], true)] + rest.items, rest.end)
    else if re == "$" then Pattern(false, [], true)
    else
      var rest := ParseHere(re[1..]); Pattern(false, [Item(re[0], false)] + rest.items, rest.end)
  }

  predicate Fits(c: char, x: char) { c == '.' || c == x }

  predicate AllFit(c: char, w: string) { forall i :: 0 <= i < |w| ==> Fits(c, w[i]) }

  /** The language of a sequence of items. */
  ghost predicate InLanguage(items: seq<Item>, w: string)
    decreases |items|
  {
    if items == [] then w == []
    else if items[0].star then exists k :: 0 <= k <= |w| && AllFit(items[0].c, w[..k]) && InLanguage(items[1..], w[k..])
    else w != [] && Fits(items[0].c, w[0]) && InLanguage(items[1..], w[1..])
  }

  /** A prefix of text is in the language; all of text if the pattern is anchored at its end. */
  ghost predicate Here(p: Pattern, text: string) {
    exists j :: 0 <= j <= |text| && (p.end ==> j == |text|) && InLanguage(p.items, text[..j])
  }

  /** A substring of text is in the language, where the anchors allow it. */
  ghost predicate Matches(re: string, text: string) {
    exists i, j :: 0 <= i <= j <= |text| && Spans(Parse(re), text, i, j)
  }

  ghost predicate Spans(p: Pattern, text: string, i: nat, j: nat)
    requires i <= j <= |text|
  {
    (p.start ==> i == 0) && (p.end ==> j == |text|) && InLanguage(p.items, text[i..j])
  }

  // ---------------------------------------------------------------- how matching unfolds

  lemma HereEmpty(text: string)
    ensures Here(ParseHere(""), text)
  {
    assert text[..0] == [];
  }

  lemma HereEnd(text: string)
    ensures Here(ParseHere("$"), text) <==> text == []
  {
    if text == [] {
      assert text[..0] == [];
    }
  }

  lemma HereOne(re: string, text: string)
    requires re != [] && !(|re| > 1 && re[1] == '*') && re != "$"
    ensures Here(ParseHere(re), text) <==> text != [] && Fits(re[0], text[0]) && Here(ParseHere(re[1..]), text[1..])
  {
    var p, rest := ParseHere(re), ParseHere(re[1..]);
    assert p.items[1..] == rest.items && p.items[0] == Item(re[0], false) && p.end == rest.end;
    hide ParseHere; hide Here;
    if Here(p, text) {
      FirstItem(p, rest, text);
    }
    if text != [] && Fits(re[0], text[0]) && Here(rest, text[1..]) {
      ItemFirst(p, rest, text);
    }
  }

  lemma FirstItem(p: Pattern, rest: Pattern, text: string)
    requires p.items != [] && !p.items[0].star && rest.items == p.items[1..] && rest.end == p.end && Here(p, text)
    ensures text != [] && Fits(p.items[0].c, text[0]) && Here(rest, text[1..])
  {
    var j :| 0 <= j <= |text| && (p.end ==> j == |text|) && InLanguage(p.items, text[..j]);
    assert text[..j][1..] == text[1..][..j - 1];
  }

  lemma ItemFirst(p: Pattern, rest: Pattern, text: string)
    requires p.items != [] && !p.items[0].star && rest.items == p.items[1..] && rest.end == p.end
    requires text != [] && Fits(p.items[0].c, text[0]) && Here(rest, text[1..])
    ensures Here(p, text)
  {
    var j :| 0 <= j <= |text| - 1 && (rest.end ==> j == |text| - 1) && InLanguage(rest.items, text[1..][..j]);
    assert text[..j + 1][1..] == text[1..][..j];
    assert InLanguage(p.items, text[..j + 1]);
  }

  lemma HereStar(re: string, text: string)
    requires |re| > 1 && re[1] == '*'
    ensures Here(ParseHere(re), text) <==> exists k :: 0 <= k <= |text| && StarAt(re[0], re[2..], text, k)
  {
    hide Here; hide StarAt;
    if Here(ParseHere(re), text) {
      var k := HereTakes(re, text);
    }
    if k :| 0 <= k <= |text| && StarAt(re[0], re[2..], text, k) {
      TakenHere(re, text, k);
    }
  }

  lemma HereTakes(re: string, text: string) returns (k: nat)
    requires |re| > 1 && re[1] == '*' && Here(ParseHere(re), text)
    ensures k <= |text| && StarAt(re[0], re[2..], text, k)
  {
    var p, rest := ParseHere(re), ParseHere(re[2..]);
    assert p.items[1..] == rest.items && p.end == rest.end;
    hide ParseHere;
    var j :| 0 <= j <= |text| && (p.end ==> j == |text|) && InLanguage(p.items, text[..j]);
    var w := text[..j];
    k :| 0 <= k <= |w| && AllFit(re[0], w[..k]) && InLanguage(rest.items, w[k..]);
    assert w[..k] == text[..k] && w[k..] == text[k..][..j - k];
  }

  lemma TakenHere(re: string, text: string, k: nat)
    requires |re| > 1 && re[1] == '*' && k <= |text| && StarAt(re[0], re[2..], text, k)
    ensures Here(ParseHere(re), text)
  {
    var p, rest := ParseHere(re), ParseHere(re[2..]);
    assert p.items[1..] == rest.items && p.end == rest.end;
    hide ParseHere;
    var i :| 0 <= i <= |text| - k && (rest.end ==> i == |text| - k) && InLanguage(rest.items, text[k..][..i]);
    var w := text[..k + i];
    assert w[..k] == text[..k] && w[k..] == text[k..][..i];
    assert InLanguage(p.items, w);
  }

  // c* takes the first k characters, and the rest of the pattern follows.
  ghost predicate StarAt(c: char, re: string, text: string, k: nat)
    requires k <= |text|
  {
    AllFit(c, text[..k]) && Here(ParseHere(re), text[k..])
  }

  // ---------------------------------------------------------------- the matcher

  /** matchhere */
  method MatchHere(re: string, text: string) returns (r: bool)
    ensures r <==> Here(ParseHere(re), text)
    decreases |re|, 0
  {
    hide Here; hide ParseHere;
    if re == [] {
      HereEmpty(text);
      return true;
    }
    if |re| > 1 && re[1] == '*' {
      HereStar(re, text);
      r := MatchStar(re[0], re[2..], text);
      return;
    }
    if re[0] == '$' && |re| == 1 {
      assert re == "$";
      HereEnd(text);
      return text == [];
    }
    HereOne(re, text);
    if text != [] && (re[0] == '.' || re[0] == text[0]) {
      r := MatchHere(re[1..], text[1..]);
      return;
    }
    r := false;
  }

  /** matchstar */
  method MatchStar(c: char, re: string, text: string) returns (r: bool)
    ensures r <==> exists k :: 0 <= k <= |text| && StarAt(c, re, text, k)
    decreases |re|, 1
  {
    hide Here; hide ParseHere;
    var k := 0;
    while true
      invariant 0 <= k <= |text| && AllFit(c, text[..k])
      invariant forall i :: 0 <= i < k ==> !StarAt(c, re, text, i)
      decreases |text| - k
    {
      var m := MatchHere(re, text[k..]);
      if m {
        assert StarAt(c, re, text, k);
        return true;
      }
      if !(k < |text| && (text[k] == c || c == '.')) {
        break;
      }
      k := k + 1;
    }
    forall i | 0 <= i <= |text| ensures !StarAt(c, re, text, i) {
      if i > k {
        assert text[..i][k] == text[k];
      }
    }
    r := false;
  }

  /** match is true exactly if a substring of the text is in the pattern's language. */
  method Match(re: string, text: string) returns (r: bool)
    ensures r <==> Matches(re, text)
  {
    hide ParseHere; hide Matches;
    if re != [] && re[0] == '^' {
      Anchored(re, text);
      r := MatchHere(re[1..], text);
      return;
    }
    Unanchored(re, text);
    var t := 0;
    while true
      invariant 0 <= t <= |text|
      invariant forall i :: 0 <= i < t ==> !Here(ParseHere(re), text[i..])
      decreases |text| - t
    {
      r := MatchHere(re, text[t..]);
      if r {
        return;
      }
      if t == |text| {
        break;
      }
      t := t + 1;
    }
  }

  lemma Anchored(re: string, text: string)
    requires re != [] && re[0] == '^'
    ensures Matches(re, text) <==> Here(ParseHere(re[1..]), text)
  {
    var p := ParseHere(re[1..]);
    if j :| 0 <= j <= |text| && (p.end ==> j == |text|) && InLanguage(p.items, text[..j]) {
      assert text[0..j] == text[..j];
      assert Spans(Parse(re), text, 0, j);
    }
    if i, j :| 0 <= i <= j <= |text| && Spans(Parse(re), text, i, j) {
      assert text[0..j] == text[..j];
    }
  }

  lemma Unanchored(re: string, text: string)
    requires !(re != [] && re[0] == '^')
    ensures Matches(re, text) <==> exists i :: 0 <= i <= |text| && Here(ParseHere(re), text[i..])
  {
    var p := ParseHere(re);
    NoStart(re);
    assert Parse(re) == p;
    if i, j :| 0 <= i <= j <= |text| && Spans(p, text, i, j) {
      assert text[i..j] == text[i..][..j - i];
      assert Here(p, text[i..]);
    }
    if i :| 0 <= i <= |text| && Here(p, text[i..]) {
      var j :| 0 <= j <= |text| - i && (p.end ==> j == |text| - i) && InLanguage(p.items, text[i..][..j]);
      assert text[i..i + j] == text[i..][..j];
      assert Spans(p, text, i, i + j);
    }
  }

  lemma NoStart(re: string)
    ensures !ParseHere(re).start
  {
  }

  // ---------------------------------------------------------------- lines

  const BUFSIZE: nat := 1024

  /** The first newline at or after position i, or the end. */
  function Newline(s: string, i: nat): (r: nat)
    requires i <= |s|
    ensures i <= r <= |s| && (r < |s| ==> s[r] == '\n') && forall k :: i <= k < r ==> s[k] != '\n'
    decreases |s| - i
  {
    if i == |s| || s[i] == '\n' then i else Newline(s, i + 1)
  }

  lemma NewlineIs(s: string, i: nat, r: nat)
    requires i <= r <= |s| && (r < |s| ==> s[r] == '\n') && forall k :: i <= k < r ==> s[k] != '\n'
    ensures Newline(s, i) == r
  {
  }

  /** The first line of s ends at q, fits the buffer, and is a C string. */
  predicate Readable(s: string, q: nat) { q < |s| && q <= BUFSIZE - 2 && '\0' !in s[..q] }

  /**
    What grep is to print: the newline-terminated lines that match, up to the first line
    that has more than BUFSIZE - 2 characters or a NUL.
   */
  ghost function Output(re: string, s: string): string
    decreases |s|
  {
    var q := Newline(s, 0);
    if !Readable(s, q) then []
    else (if Matches(re, s[..q]) then s[..q + 1] else []) + Output(re, s[q + 1..])
  }

  /** All newline-terminated lines that match. */
  ghost function MatchingLines(re: string, s: string): string
    decreases |s|
  {
    var q := Newline(s, 0);
    if q == |s| then [] else (if Matches(re, s[..q]) then s[..q + 1] else []) + MatchingLines(re, s[q + 1..])
  }

  /** What grep never matches: everything from the first line on that is overlong or has a NUL. */
  function Unread(s: string): string
    decreases |s|
  {
    var q := Newline(s, 0);
    if q == |s| then [] else if !Readable(s, q) then s else Unread(s[q + 1..])
  }

  /** The output and the matching lines in the unread part make up all matching lines. */
  lemma {:induction false} OutputAndUnread(re: string, s: string)
    ensures MatchingLines(re, s) == Output(re, s) + MatchingLines(re, Unread(s))
    decreases |s|
  {
    hide Matches; hide MatchingLines; hide Output; hide Unread;
    var q := Newline(s, 0);
    FirstLine(re, s);
    if Readable(s, q) {
      var line, t := if Matches(re, s[..q]) then s[..q + 1] else [], s[q + 1..];
      OutputAndUnread(re, t);
      Regroup(line, Output(re, t), MatchingLines(re, Unread(t)));
    }
  }

  // What the first line contributes.
  lemma FirstLine(re: string, s: string)
    ensures var q := Newline(s, 0);
      if Readable(s, q) then
        var line, t := if Matches(re, s[..q]) then s[..q + 1] else [], s[q + 1..];
        MatchingLines(re, s) == line + MatchingLines(re, t) && Output(re, s) == line + Output(re, t) && Unread(s) == Unread(t)
      else Output(re, s) == [] && MatchingLines(re, Unread(s)) == MatchingLines(re, s)
  {
    hide Matches;
  }

  lemma Regroup(a: string, b: string, c: string)
    ensures a + (b + c) == a + b + c
  {
  }

  /** grep prints every matching line exactly if none comes at or after the first line it cannot read. */
  lemma {:induction false} OutputIsMatchingLines(re: string, s: string)
    ensures Output(re, s) == MatchingLines(re, s) <==> MatchingLines(re, Unread(s)) == []
  {
    OutputAndUnread(re, s);
  }

  /** It does not always: a line of 1023 characters that matches is lost. */
  lemma {:induction false} OverlongLineIsLost()
    ensures var s := seq(1023, _ => 'a') + "\n"; Output("a", s) == [] && MatchingLines("a", s) == s
  {
    var line := seq(1023, _ => 'a');
    var s := line + "\n";
    NewlineIs(s, 0, 1023);
    assert s[..1023] == line && s[..1024] == s && s[1024..] == [];
    OneCharMatches(line);
    assert MatchingLines("a", s) == s[..1024] + MatchingLines("a", s[1024..]);
  }

  lemma OneCharMatches(text: string)
    requires text != [] && text[0] == 'a'
    ensures Matches("a", text)
  {
    assert ParseHere("") == Pattern(false, [], false);
    assert Parse("a").items == [Item('a', false)];
    assert text[0..1][1..] == [] && [Item('a', false)][1..] == [];
    assert Spans(Parse("a"), text, 0, 1);
  }

  lemma OutputFirst(re: string, s: string, q: nat)
    requires q == Newline(s, 0) && Readable(s, q)
    ensures Output(re, s) == (if Matches(re, s[..q]) then s[..q + 1] else []) + Output(re, s[q + 1..])
  {
    hide Matches; hide Newline; hide Readable;
  }

  // A line at the start of s + more that ends within s.
  lemma OutputLine(re: string, s: string, more: string, q: nat)
    requires q < |s| && s[q] == '\n' && (forall k :: 0 <= k < q ==> s[k] != '\n' && s[k] != '\0') && q <= BUFSIZE - 2
    ensures Output(re, s + more) == (if Matches(re, s[..q]) then s[..q + 1] else []) + Output(re, s[q + 1..] + more)
  {
    hide Output; hide Matches; hide Newline;
    var all := s + more;
    NewlineIs(all, 0, q);
    assert all[..q] == s[..q] && all[..q + 1] == s[..q + 1] && all[q + 1..] == s[q + 1..] + more;
    OutputFirst(re, all, q);
  }

  // No newline in s can be reached: each comes behind a NUL.
  predicate NoLine(s: string) { forall k :: 0 <= k < |s| && s[k] == '\n' ==> '\0' in s[..k] }

  // No line ends in s, and there is nothing more or no room for more.
  lemma OutputStops(re: string, s: string, more: string)
    requires NoLine(s) && (more == [] || |s| == BUFSIZE - 1)
    ensures Output(re, s + more) == []
  {
    var all := s + more;
    var q := Newline(all, 0);
    if q < |s| {
      assert s[q] == '\n' && all[..q] == s[..q];
    }
  }

  // ---------------------------------------------------------------- the loop

  // strchr for a newline, from p on, in a buffer that ends with a NUL at m; it stops at the first NUL
  method Strchr(buf: array<char>, p: nat, m: nat) returns (found: bool, q: nat)
    requires p <= m < buf.Length && buf[m] == '\0'
    ensures found ==> p <= q < m && buf[q] == '\n' && forall k :: p <= k < q ==> buf[k] != '\n' && buf[k] != '\0'
    ensures !found ==> NoLine(buf[p..m])
  {
    q := p;
    while buf[q] != '\0' && buf[q] != '\n'
      invariant p <= q <= m && forall k :: p <= k < q ==> buf[k] != '\n' && buf[k] != '\0'
      decreases m - q
    {
      q := q + 1;
    }
    found := buf[q] == '\n';
    if !found {
      Unreachable(buf[p..m], q - p);
    }
  }

  lemma Unreachable(s: string, i: nat)
    requires i <= |s| && (forall k :: 0 <= k < i ==> s[k] != '\n') && (i < |s| ==> s[i] == '\0')
    ensures NoLine(s)
  {
    forall k | 0 <= k < |s| && s[k] == '\n' ensures '\0' in s[..k] {
      assert s[..k][i] == '\0';
    }
  }

  // memmove of the n characters at p to the front of the buffer
  method MoveDown(buf: array<char>, p: nat, n: nat)
    requires p + n <= buf.Length
    modifies buf
    ensures buf[..n] == old(buf[p..p + n])
  {
    var i := 0;
    while i < n
      invariant 0 <= i <= n
      invariant forall k :: 0 <= k < i ==> buf[k] == old(buf[p + k])
      invariant forall k :: i <= k < buf.Length && p > 0 ==> (k >= p + i ==> buf[k] == old(buf[k]))
      invariant p == 0 ==> buf[..] == old(buf[..])
    {
      buf[i] := buf[p + i];
      i := i + 1;
    }
  }

  // A read that returns the next characters of the file, behind the m already in the buffer.
  method ReadInto(buf: array<char>, m: nat, chars: string)
    requires m + |chars| <= buf.Length
    modifies buf
    ensures buf[..m] == old(buf[..m]) && buf[m..m + |chars|] == chars
  {
    var i := 0;
    while i < |chars|
      invariant 0 <= i <= |chars|
      invariant buf[..m] == old(buf[..m])
      invariant forall k :: 0 <= k < i ==> buf[m + k] == chars[k]
    {
      buf[m + i] := chars[i];
      i := i + 1;
    }
  }

  /**
    grep: splits says how much each read would like to return.  The output does not
    depend on it.
   */
  method GrepLines(re: string, input: string, splits: seq<nat>) returns (out: string)
    ensures out == Output(re, input)
  {
    hide Output; hide Matches;
    out := [];
    var buf := new char[BUFSIZE];
    var m: nat, done: nat, turn: nat := 0, 0, 0;
    assert buf[..0] + input[0..] == input;
    while true
      invariant m <= BUFSIZE - 1 && done <= |input| && NoLine(buf[..m])
      invariant out + Output(re, buf[..m] + input[done..]) == Output(re, input)
      decreases |input| - done
    {
      var n := ReadSize(splits, turn, BUFSIZE - 1 - m, |input| - done);
      if n <= 0 {
        OutputStops(re, buf[..m], input[done..]);
        break;
      }
      assert input[done..] == input[done..done + n] + input[done + n..];
      var printed;
      m, printed := Turn(re, buf, m, input[done..done + n], input[done + n..]);
      out, done, turn := out + printed, done + n, turn + 1;
    }
  }

  // One turn: what was read goes behind the unfinished line, lines are printed, the rest moves to the front.
  method Turn(re: string, buf: array<char>, m0: nat, chars: string, ghost more: string) returns (m: nat, out: string)
    requires m0 + |chars| <= BUFSIZE - 1 && buf.Length == BUFSIZE
    modifies buf
    ensures m <= BUFSIZE - 1 && NoLine(buf[..m])
    ensures Output(re, old(buf[..m0]) + (chars + more)) == out + Output(re, buf[..m] + more)
  {
    hide Output;
    ghost var before := buf[..m0];
    ReadInto(buf, m0, chars);
    m := m0 + |chars|;
    assert buf[..m] == before + chars;
    ghost var line := buf[..m];
    buf[m] := '\0';
    assert buf[..m] == line;
    assert before + (chars + more) == buf[..m] + more;
    var p;
    p, out := Lines(re, buf, m, more);
    ghost var rest := buf[p..m];
    assert buf[p..p + (m - p)] == rest;
    MoveDown(buf, p, m - p);
    m := m - p;
  }

  // How many characters a read returns: at least one, unless there is no room or no more input.
  function ReadSize(splits: seq<nat>, turn: nat, room: nat, left: nat): (n: nat)
    ensures n <= room && n <= left && (n == 0 <==> room == 0 || left == 0)
  {
    var want := if turn < |splits| && splits[turn] > 0 then splits[turn] else 1;
    var most := if room < left then room else left;
    if want < most then want else most
  }

  lemma Slices(t: string, p: nat, q: nat, m: nat)
    requires p <= q < m <= |t|
    ensures t[p..m][..q - p] == t[p..q] && t[p..m][..q - p + 1] == t[p..q + 1] && t[p..m][q - p + 1..] == t[q + 1..m]
    ensures t[p..m][q - p] == t[q]
  {
  }

  // The loop over the lines that end in the buffer.
  method Lines(re: string, buf: array<char>, m: nat, ghost more: string) returns (p: nat, out: string)
    requires m <= BUFSIZE - 1 && buf.Length == BUFSIZE && buf[m] == '\0'
    modifies buf
    ensures p <= m && NoLine(buf[p..m])
    ensures Output(re, old(buf[..m]) + more) == out + Output(re, buf[p..m] + more)
  {
    hide Output; hide Matches;
    p, out := 0, [];
    ghost var all := Output(re, buf[..m] + more);
    assert buf[0..m] == buf[..m];
    while true
      invariant p <= m && out + Output(re, buf[p..m] + more) == all
      invariant forall k :: p <= k <= m ==> buf[k] == old(buf[k])
      decreases m - p
    {
      var found, q := Strchr(buf, p, m);
      if !found {
        break;
      }
      var printed := NextLine(re, buf, p, q, m, more);
      Regroup(out, printed, Output(re, buf[q + 1..m] + more));
      out := out + printed;
      p := q + 1;
    }
  }

  // The line from p to q, and what is left of the buffer.
  method NextLine(re: string, buf: array<char>, p: nat, q: nat, m: nat, ghost more: string) returns (out: string)
    requires p <= q < m <= BUFSIZE - 1 && buf.Length == BUFSIZE && buf[q] == '\n'
    requires forall k :: p <= k < q ==> buf[k] != '\n' && buf[k] != '\0'
    modifies buf
    ensures Output(re, old(buf[p..m]) + more) == out + Output(re, buf[q + 1..m] + more)
    ensures forall k :: q < k <= m ==> buf[k] == old(buf[k])
  {
    hide Output; hide Matches; hide Newline;
    ghost var t := buf[..];
    Slices(t, p, q, m);
    assert t[p..m] == buf[p..m];
    OutputLine(re, t[p..m], more, q - p);
    out := OneLine(re, buf, p, q);
    assert buf[q + 1..m] == t[q + 1..m];
  }

  // A line, with its newline overwritten while it is matched.
  method OneLine(re: string, buf: array<char>, p: nat, q: nat) returns (out: string)
    requires p <= q < buf.Length && buf[q] == '\n'
    modifies buf
    ensures out == if Matches(re, old(buf[..])[p..q]) then old(buf[..])[p..q + 1] else []
    ensures forall k :: 0 <= k < buf.Length && k != q ==> buf[k] == old(buf[k])
  {
    hide Matches;
    ghost var t := buf[..];
    buf[q] := '\0';
    assert buf[p..q] == t[p..q];
    var hit := Match(re, buf[p..q]);
    if hit {
      buf[q] := '\n';
      assert buf[p..q + 1] == t[p..q + 1];
      return buf[p..q + 1];
    }
    out := [];
  }
}
