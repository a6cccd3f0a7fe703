/**
 The shell's line splitter: strtok over the line in place, with the token pointers kept in an array
 that grows 64 entries at a time. Pointers are offsets into the line; None is NULL.
 */
module Tokenizer {
  import opened Common

  const NUL := '\0'
  const BUFSIZE: nat := 64

  predicate IsDelim(c: char) { c in " \t\r\n\U{0007}" }

  predicate DelimFree(s: string) { forall i :: 0 <= i < |s| ==> !IsDelim(s[i]) }

  // ---- the specification: maximal delimiter-free runs ----

  /** text[a..b] is a longest stretch without delimiters. */
  predicate MaximalRun(text: string, a: nat, b: nat) {
    && a < b <= |text|
    && (forall i :: a <= i < b ==> !IsDelim(text[i]))
    && (a == 0 || IsDelim(text[a - 1]))
    && (b == |text| || IsDelim(text[b]))
  }

  function SkipDelims(text: string, from: nat): (p: nat)
    requires from <= |text|
    ensures from <= p <= |text|
    ensures forall i :: from <= i < p ==> IsDelim(text[i])
    ensures p < |text| ==> !IsDelim(text[p])
    decreases |text| - from
  {
    if from < |text| && IsDelim(text[from]) then SkipDelims(text, from + 1) else from
  }

  function RunEnd(text: string, from: nat): (p: nat)
    requires from <= |text|
    ensures from <= p <= |text|
    ensures forall i :: from <= i < p ==> !IsDelim(text[i])
    ensures p < |text| ==> IsDelim(text[p])
    decreases |text| - from
  {
    if from < |text| && !IsDelim(text[from]) then RunEnd(text, from + 1) else from
  }

  datatype Run = Run(start: nat, end: nat)

  /** Where the search goes on after a run: past the delimiter that ended it. */
  function After(text: string, end: nat): nat { if end < |text| then end + 1 else end }

  function Runs(text: string, from: nat): seq<Run>
    requires from <= |text|
    decreases |text| - from
  {
    var a := SkipDelims(text, from);
    if a == |text| then []
    else
      var b := RunEnd(text, a);
      [Run(a, b)] + Runs(text, After(text, b))
  }

  /** Maximal runs at or after `from`, from left to right. */
  ghost predicate LeftToRight(text: string, from: nat, rs: seq<Run>) {
    && (forall i {:trigger rs[i]} :: 0 <= i < |rs| ==> from <= rs[i].start && MaximalRun(text, rs[i].start, rs[i].end))
    && (forall i, j {:trigger rs[i], rs[j]} :: 0 <= i < j < |rs| ==> rs[i].end < rs[j].start)
  }

  lemma {:induction false} RunsFrom(text: string, from: nat)
    requires from <= |text|
    requires from == 0 || IsDelim(text[from - 1]) || from == |text|
    ensures LeftToRight(text, from, Runs(text, from))
    decreases |text| - from
  {
    var a := SkipDelims(text, from);
    if a < |text| {
      var b := RunEnd(text, a);
      RunsFrom(text, After(text, b));
      RunInFront(text, from, a, b, Runs(text, After(text, b)));
    }
  }

  lemma RunInFront(text: string, from: nat, a: nat, b: nat, rest: seq<Run>)
    requires from <= a && MaximalRun(text, a, b)
    requires LeftToRight(text, After(text, b), rest) && (b == |text| ==> rest == [])
    ensures LeftToRight(text, from, [Run(a, b)] + rest)
  {
  }

  lemma {:induction false} RunsComplete(text: string, from: nat, x: nat, y: nat)
    requires from <= x && MaximalRun(text, x, y)
    requires from == 0 || IsDelim(text[from - 1]) || from == |text|
    ensures Run(x, y) in Runs(text, from)
    decreases |text| - from
  {
    FirstRun(text, from, x, y);
    var b := RunEnd(text, SkipDelims(text, from));
    if After(text, b) <= x {
      RunsComplete(text, After(text, b), x, y);
    }
  }

  /** A maximal run at or after `from` is the first one found or lies beyond it. */
  lemma {:induction false} FirstRun(text: string, from: nat, x: nat, y: nat)
    requires from <= x && MaximalRun(text, x, y)
    requires from == 0 || IsDelim(text[from - 1]) || from == |text|
    ensures var a := SkipDelims(text, from);
            a < |text| && ((x == a && y == RunEnd(text, a)) || After(text, RunEnd(text, a)) <= x)
  {
    assert !IsDelim(text[x]);
    var a := SkipDelims(text, from);
    var b := RunEnd(text, a);
    if x == a {
      assert y == b;
    } else {
      assert IsDelim(text[x - 1]);
    }
  }

  /** The runs are all the maximal ones, each once, from left to right. */
  lemma {:induction false} RunsAreTheMaximalOnes(text: string)
    ensures var rs := Runs(text, 0);
            && (forall a: nat, b: nat :: Run(a, b) in rs <==> MaximalRun(text, a, b))
            && (forall i, j :: 0 <= i < j < |rs| ==> rs[i].end < rs[j].start)
  {
    RunsFrom(text, 0);
    forall a: nat, b: nat | MaximalRun(text, a, b) ensures Run(a, b) in Runs(text, 0) {
      RunsComplete(text, 0, a, b);
    }
  }

  /** The maximal run around a position that is no delimiter. */
  lemma {:induction false} RunAround(text: string, i: nat) returns (a: nat, b: nat)
    requires i < |text| && !IsDelim(text[i])
    ensures a <= i < b && MaximalRun(text, a, b)
    decreases i
  {
    b := RunEnd(text, i);
    if i == 0 || IsDelim(text[i - 1]) {
      a := i;
    } else {
      a, b := RunAround(text, i - 1);
    }
  }

  /** A character of the line is in a token exactly when it is no space, tab, carriage return, line feed or bell. */
  lemma {:induction false} InTokenIff(text: string, i: nat)
    requires i < |text|
    ensures (exists k :: 0 <= k < |Runs(text, 0)| && Runs(text, 0)[k].start <= i < Runs(text, 0)[k].end) <==>
            text[i] != ' ' && text[i] != '\t' && text[i] != '\r' && text[i] != '\n' && text[i] != '\U{0007}'
  {
    RunsAreTheMaximalOnes(text);
    RunsFrom(text, 0);
    if !IsDelim(text[i]) {
      var a, b := RunAround(text, i);
      assert Run(a, b) in Runs(text, 0);
    }
  }

  // ---- tokens as strings ----

  /** The runs' own text. */
  function Tokens(text: string, from: nat): seq<string>
    requires from <= |text|
    decreases |text| - from
  {
    var a := SkipDelims(text, from);
    if a == |text| then []
    else
      var b := RunEnd(text, a);
      [text[a..b]] + Tokens(text, After(text, b))
  }

  lemma {:induction false} TokensAreRunTexts(text: string, from: nat)
    requires from <= |text|
    ensures |Tokens(text, from)| == |Runs(text, from)|
    ensures forall i {:trigger Runs(text, from)[i]} :: 0 <= i < |Runs(text, from)| ==>
              var r := Runs(text, from)[i];
              r.start < r.end <= |text| && Tokens(text, from)[i] == text[r.start..r.end]
    decreases |text| - from
  {
    var a := SkipDelims(text, from);
    if a < |text| {
      TokensAreRunTexts(text, After(text, RunEnd(text, a)));
    }
  }

  predicate IsToken(s: string) { s != "" && DelimFree(s) }

  function Join(ts: seq<string>): string {
    if ts == [] then "" else if |ts| == 1 then ts[0] else ts[0] + " " + Join(ts[1..])
  }

  /** The first token of a join is the first run, and what follows it is the join of the others. */
  lemma FirstOfJoin(text: string, from: nat, ts: seq<string>)
    requires from <= |text| && text[from..] == Join(ts)
    requires ts != [] && IsToken(ts[0])
    ensures var end := from + |ts[0]|;
            && end <= |text| && text[from..end] == ts[0]
            && SkipDelims(text, from) == from && RunEnd(text, from) == end
            && text[After(text, end)..] == Join(ts[1..])
  {
    var t, end := ts[0], from + |ts[0]|;
    assert t <= text[from..];
    assert text[from..end] == t;
    forall i | from <= i < end ensures !IsDelim(text[i]) {
      assert text[from..end][i - from] == t[i - from];
    }
    if |ts| > 1 {
      assert text[from..][|t|] == ' ';
      assert text[end..] == " " + Join(ts[1..]);
    }
  }

  lemma {:induction false} TokenInFront(text: string, from: nat, end: nat)
    requires from < end <= |text|
    requires SkipDelims(text, from) == from && RunEnd(text, from) == end
    ensures Tokens(text, from) == [text[from..end]] + Tokens(text, After(text, end))
  {
  }

  /** Splitting what lies after a prefix ending in a delimiter gives back the joined tokens. */
  lemma {:induction false} SplitSuffix(text: string, from: nat, ts: seq<string>)
    requires from <= |text| && text[from..] == Join(ts)
    requires forall i :: 0 <= i < |ts| ==> IsToken(ts[i])
    ensures Tokens(text, from) == ts
    decreases |ts|
  {
    if ts == [] {
      assert from == |text|;
    } else {
      FirstOfJoin(text, from, ts);
      SplitSuffix(text, After(text, from + |ts[0]|), ts[1..]);
      TokenInFront(text, from, from + |ts[0]|);
      assert ts == [ts[0]] + ts[1..];
    }
  }

  /** Splitting tokens joined by single spaces returns the tokens. */
  lemma {:induction false} SplitOfJoin(ts: seq<string>)
    requires forall i :: 0 <= i < |ts| ==> IsToken(ts[i])
    ensures Tokens(Join(ts), 0) == ts
  {
    assert Join(ts)[0..] == Join(ts);
    SplitSuffix(Join(ts), 0, ts);
  }

  // ---- C strings ----

  /** The string a pointer denotes: everything up to the first NUL. */
  function CString(buf: seq<char>, p: nat): string
    requires p <= |buf|
    decreases |buf| - p
  {
    if p == |buf| || buf[p] == NUL then "" else [buf[p]] + CString(buf, p + 1)
  }

  lemma {:induction false} CStringUpTo(buf: seq<char>, a: nat, b: nat)
    requires a <= b < |buf| && buf[b] == NUL
    requires forall i :: a <= i < b ==> buf[i] != NUL
    ensures CString(buf, a) == buf[a..b]
    decreases b - a
  {
    if a < b {
      CStringUpTo(buf, a + 1, b);
      assert buf[a..b] == [buf[a]] + buf[a + 1..b];
    }
  }

  // ---- strtok ----

  /** line[..n] is text, line[n] the terminating NUL. */
  ghost predicate HoldsFrom(line: array<char>, text: string, from: nat)
    reads line
  {
    && |text| < line.Length && from <= |text|
    && line[from..|text|] == text[from..]
    && line[|text|] == NUL
    && NUL !in text
  }

  /** One strtok call starting at the saved pointer: the next token, if any, and the new saved pointer. */
  method NextToken(line: array<char>, ghost text: string, from: nat) returns (token: Option<nat>, save: nat)
    requires HoldsFrom(line, text, from)
    modifies line
    ensures from <= save <= |text|
    ensures HoldsFrom(line, text, save)
    ensures var a := SkipDelims(text, from);
            if a == |text| then token == None && line[..] == old(line[..])
            else
              var b := RunEnd(text, a);
              && token == Some(a) && save == After(text, b)
              && line[..] == old(line[..])[b := NUL]
  {
    var s := from;
    while line[s] != NUL && IsDelim(line[s])
      invariant from <= s <= |text|
      invariant SkipDelims(text, from) == SkipDelims(text, s)
      decreases |text| - s
    {
      assert line[s] == line[from..|text|][s - from] == text[s];
      s := s + 1;
    }
    assert s < |text| ==> line[s] == line[from..|text|][s - from] == text[s];
    if line[s] == NUL {
      assert s == |text|;
      return None, s;
    }
    token := Some(s);
    var e := s;
    while line[e] != NUL && !IsDelim(line[e])
      invariant s <= e <= |text|
      invariant RunEnd(text, s) == RunEnd(text, e)
      decreases |text| - e
    {
      assert line[e] == line[from..|text|][e - from] == text[e];
      e := e + 1;
    }
    assert e < |text| ==> line[e] == line[from..|text|][e - from] == text[e];
    if line[e] == NUL {
      save := e;
      assert line[..] == old(line[..])[e := NUL];
    } else {
      line[e] := NUL;
      save := e + 1;
    }
    forall i | save <= i < |text| ensures line[i] == text[i] {
      assert old(line[from..|text|])[i - from] == text[i];
    }
    assert line[save..|text|] == text[save..];
  }

  // ---- the splitter ----

  /** A pointer array of the next capacity with the same entries. */
  method Grow(tokens: array<Option<nat>>) returns (bigger: array<Option<nat>>)
    ensures fresh(bigger) && bigger.Length == tokens.Length + BUFSIZE
    ensures bigger[..tokens.Length] == tokens[..]
  {
    bigger := new Option<nat>[tokens.Length + BUFSIZE](_ => None);
    for i := 0 to tokens.Length
      invariant bigger[..i] == tokens[..i]
    {
      bigger[i] := tokens[i];
    }
  }

  /** What the line holds once the delimiters ending these runs are NULs. */
  ghost predicate CutAt(now: seq<char>, before: seq<char>, rs: seq<Run>) {
    && |now| == |before|
    && (forall k :: 0 <= k < |rs| ==> rs[k].end < |now| && now[rs[k].end] == NUL)
    && (forall j :: 0 <= j < |now| && (forall k :: 0 <= k < |rs| ==> rs[k].end != j) ==> now[j] == before[j])
  }

  lemma CutOneMore(now: seq<char>, before: seq<char>, rs: seq<Run>, r: Run)
    requires CutAt(now, before, rs) && r.end < |now|
    ensures CutAt(now[r.end := NUL], before, rs + [r])
  {
    var rs', next := rs + [r], now[r.end := NUL];
    forall j | 0 <= j < |now| && (forall k :: 0 <= k < |rs'| ==> rs'[k].end != j) ensures next[j] == before[j] {
      assert rs'[|rs|].end != j;
      forall k | 0 <= k < |rs| ensures rs[k].end != j {
        assert rs'[k] == rs[k];
      }
    }
  }

  /** The pointer to a run's start denotes the run's own text. */
  ghost predicate ReadsBack(now: seq<char>, text: string, r: Run) {
    r.start < r.end <= |text| && |text| < |now| && CString(now, r.start) == text[r.start..r.end]
  }

  /** The strings behind the pointers are the tokens. */
  lemma {:induction false} PointersDenoteTokens(now: seq<char>, text: string, k: nat)
    requires k < |Runs(text, 0)| && ReadsBack(now, text, Runs(text, 0)[k])
    ensures k < |Tokens(text, 0)| && CString(now, Runs(text, 0)[k].start) == Tokens(text, 0)[k]
  {
    TokensAreRunTexts(text, 0);
  }

  /** No cut falls inside a run. */
  lemma {:induction false} RunUntouched(now: seq<char>, before: seq<char>, text: string, k: nat, i: nat)
    requires |text| < |before| && before[..|text|] == text && NUL !in text
    requires CutAt(now, before, Runs(text, 0)) && k < |Runs(text, 0)|
    requires Runs(text, 0)[k].start <= i < Runs(text, 0)[k].end && i < |text|
    ensures now[i] == text[i] != NUL
  {
    NotCutInside(text, k, i);
    assert now[i] == before[i] == before[..|text|][i];
    assert text[i] in text;
  }

  /** Each pointer reads back its own token. */
  lemma {:induction false} TokensReadBack(now: seq<char>, before: seq<char>, text: string, k: nat)
    requires |text| < |before| && before[..|text|] == text && NUL !in text
    requires CutAt(now, before, Runs(text, 0)) && k < |Runs(text, 0)|
    ensures ReadsBack(now, text, Runs(text, 0)[k])
  {
    var r := Runs(text, 0)[k];
    RunsFrom(text, 0);
    assert MaximalRun(text, r.start, r.end);
    forall i | r.start <= i < r.end ensures now[i] == text[i] != NUL {
      RunUntouched(now, before, text, k, i);
    }
    RunReadsBack(now, text, r);
  }

  lemma RunReadsBack(now: seq<char>, text: string, r: Run)
    requires r.start < r.end <= |text| < |now| && now[r.end] == NUL
    requires forall i :: r.start <= i < r.end ==> now[i] == text[i] != NUL
    ensures ReadsBack(now, text, r)
  {
    CStringUpTo(now, r.start, r.end);
    assert now[r.start..r.end] == text[r.start..r.end];
  }

  lemma {:induction false} AllReadBack(now: seq<char>, before: seq<char>, text: string)
    requires |text| < |before| && before[..|text|] == text && NUL !in text
    requires CutAt(now, before, Runs(text, 0))
    ensures forall k :: 0 <= k < |Runs(text, 0)| ==> ReadsBack(now, text, Runs(text, 0)[k])
  {
    forall k | 0 <= k < |Runs(text, 0)| ensures ReadsBack(now, text, Runs(text, 0)[k]) {
      TokensReadBack(now, before, text, k);
    }
  }

  /** No run ends inside another. */
  lemma {:induction false} NotCutInside(text: string, k: nat, i: nat)
    requires k < |Runs(text, 0)| && Runs(text, 0)[k].start <= i < Runs(text, 0)[k].end
    ensures forall m :: 0 <= m < |Runs(text, 0)| ==> Runs(text, 0)[m].end != i
  {
    RunsFrom(text, 0);
    var rs := Runs(text, 0);
    forall m | 0 <= m < |rs| ensures rs[m].end != i {
      assert MaximalRun(text, rs[m].start, rs[m].end) && MaximalRun(text, rs[k].start, rs[k].end);
      if m < k {
        assert rs[m].end < rs[k].start;
      } else if k < m {
        assert rs[k].end < rs[m].start;
      }
    }
  }

  /** `found` are the runs taken so far, the rest of the search starts at `from`, and `token` is its first run. */
  ghost predicate Scanned(now: seq<char>, before: seq<char>, text: string, found: seq<Run>, from: nat,
                          token: Option<nat>, save: nat)
  {
    && from <= |text|
    && Runs(text, 0) == found + Runs(text, from)
    && var a := SkipDelims(text, from);
       if a == |text| then token == None && CutAt(now, before, found)
       else
         var b := RunEnd(text, a);
         token == Some(a) && save == After(text, b) && CutAt(now, before, found + [Run(a, b)])
  }

  lemma {:induction false} ScannedNext(now: seq<char>, now': seq<char>, before: seq<char>, text: string,
                                       found: seq<Run>, from: nat, token: nat, save: nat,
                                       token': Option<nat>, save': nat)
    requires Scanned(now, before, text, found, from, Some(token), save)
    requires |text| < |before|
    requires var a := SkipDelims(text, save);
             if a == |text| then token' == None && now' == now
             else token' == Some(a) && save' == After(text, RunEnd(text, a)) && now' == now[RunEnd(text, a) := NUL]
    ensures Scanned(now', before, text, found + [Run(token, RunEnd(text, token))], save, token', save')
  {
    var r := Run(token, RunEnd(text, token));
    assert Runs(text, from) == [r] + Runs(text, save);
    assert found + ([r] + Runs(text, save)) == found + [r] + Runs(text, save);
    var a := SkipDelims(text, save);
    if a < |text| {
      CutOneMore(now, before, found + [r], Run(a, RunEnd(text, a)));
    }
  }

  /** The pointer array holds the starts of these runs, with room for one more entry. */
  ghost predicate Holds(tokens: array<Option<nat>>, found: seq<Run>)
    reads tokens
  {
    && |found| < tokens.Length == BUFSIZE * (|found| / BUFSIZE + 1)
    && forall k :: 0 <= k < |found| ==> tokens[k] == Some(found[k].start)
  }

  /** `tokens[position] = token; position++`, growing the array when it is full. */
  method Append(tokens: array<Option<nat>>, position: nat, token: Option<nat>, ghost found: seq<Run>, ghost r: Run)
    returns (tokens': array<Option<nat>>)
    requires Holds(tokens, found) && position == |found| && token == Some(r.start)
    modifies tokens
    ensures tokens' == tokens || fresh(tokens')
    ensures Holds(tokens', found + [r])
  {
    tokens[position] := token;
    tokens' := tokens;
    if position + 1 >= tokens.Length {
      tokens' := Grow(tokens);
      forall k | 0 <= k < tokens.Length ensures tokens'[k] == tokens[k] {
        assert tokens'[k] == tokens'[..tokens.Length][k];
      }
    }
  }

  /** What holds at the head of the splitter's loop. */
  ghost predicate AtLoopHead(line: array<char>, text: string, before: seq<char>, tokens: array<Option<nat>>,
                             found: seq<Run>, from: nat, token: Option<nat>, save: nat)
    reads line, tokens
  {
    && |before| == line.Length
    && HoldsFrom(line, text, save)
    && Scanned(line[..], before, text, found, from, token, save)
    && Holds(tokens, found)
  }

  /** One round of the loop: store the token, look for the next one. */
  method TakeToken(line: array<char>, ghost text: string, ghost before: seq<char>, tokens: array<Option<nat>>,
                   ghost found: seq<Run>, ghost from: nat, position: nat, token: nat, save: nat)
    returns (tokens': array<Option<nat>>, token': Option<nat>, save': nat)
    requires AtLoopHead(line, text, before, tokens, found, from, Some(token), save) && position == |found|
    modifies line, tokens
    ensures from < save <= |text|
    ensures tokens' == tokens || fresh(tokens')
    ensures AtLoopHead(line, text, before, tokens', found + [Run(token, RunEnd(text, token))], save, token', save')
  {
    tokens' := Append(tokens, position, Some(token), found, Run(token, RunEnd(text, token)));
    ghost var now := line[..];
    token', save' := NextToken(line, text, save);
    ScannedNext(now, line[..], before, text, found, from, token, save, token', save');
  }

  /** The strtok call before the loop. */
  method FirstToken(line: array<char>, ghost text: string, tokens: array<Option<nat>>)
    returns (token: Option<nat>, save: nat)
    requires HoldsFrom(line, text, 0) && Holds(tokens, [])
    modifies line
    ensures AtLoopHead(line, text, old(line[..]), tokens, [], 0, token, save)
  {
    ghost var before := line[..];
    token, save := NextToken(line, text, 0);
    var a := SkipDelims(text, 0);
    if a < |text| {
      CutOneMore(before, before, [], Run(a, RunEnd(text, a)));
    }
  }

  /**
   Splits a NUL-terminated line. The pointer array ends with NULL, holds exactly the starts of the
   maximal runs in order, and every pointer still reads back its own token after all the cuts. The line
   changes only where a run ends. Every store, the final NULL included, is within the array's capacity.
   */
  method SplitLine(line: array<char>, ghost text: string) returns (tokens: array<Option<nat>>, position: nat)
    requires HoldsFrom(line, text, 0)
    modifies line
    ensures position == |Runs(text, 0)|
    ensures position < tokens.Length && tokens.Length == 64 * (position / 64 + 1)
    ensures tokens[position] == None
    ensures forall k :: 0 <= k < position ==> tokens[k] == Some(Runs(text, 0)[k].start)
    ensures forall k :: 0 <= k < position ==> ReadsBack(line[..], text, Runs(text, 0)[k])
    ensures CutAt(line[..], old(line[..]), Runs(text, 0))
  {
    tokens := new Option<nat>[BUFSIZE](_ => None);
    position := 0;
    ghost var before := line[..];
    assert before[..|text|] == text by {
      assert line[0..|text|] == before[..|text|];
    }
    ghost var found: seq<Run> := [];
    ghost var from := 0;
    var token, save := FirstToken(line, text, tokens);
    while token != None
      invariant AtLoopHead(line, text, before, tokens, found, from, token, save)
      invariant fresh(tokens) && position == |found|
      decreases |text| - from
    {
      ghost var r := Run(token.value, RunEnd(text, token.value));
      ghost var start := save;
      tokens, token, save := TakeToken(line, text, before, tokens, found, from, position, token.value, save);
      position := position + 1;
      found, from := found + [r], start;
    }
    assert found == Runs(text, 0);
    tokens[position] := None;
    AllReadBack(line[..], before, text);
  }
}
