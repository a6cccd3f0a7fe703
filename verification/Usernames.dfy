/** The home directory name derived from a user name, and the directory made from it. */
module Usernames {
  import opened Common

  // ---- cleanUsername, stage by stage ----

  function TrimLeft(s: string): string {
    if s != [] && s[0] == ' ' then TrimLeft(s[1..]) else s
  }

  function TrimRight(s: string): string {
    if s != [] && s[|s| - 1] == ' ' then TrimRight(s[..|s| - 1]) else s
  }

  /** strings.Replace(s, "..", "", -1): pairs are removed left to right, without looking back. */
  function RemoveDotPairs(s: string): string {
    if s == [] then []
    else if |s| > 1 && s[0] == '.' && s[1] == '.' then RemoveDotPairs(s[2..])
    else [s[0]] + RemoveDotPairs(s[1..])
  }

  predicate Allowed(c: char) {
    '0' <= c <= '9' || 'A' <= c <= 'Z' || 'a' <= c <= 'z' || c in "@_-."
  }

  function DashInvalid(s: string): (r: string)
    ensures |r| == |s|
    ensures forall i :: 0 <= i < |s| ==> r[i] == if Allowed(s[i]) then s[i] else '-'
  {
    seq(|s|, i requires 0 <= i < |s| => if Allowed(s[i]) then s[i] else '-')
  }

  /** Every run of dashes becomes one. */
  function CollapseDashes(s: string): string {
    if s == [] then []
    else if |s| > 1 && s[0] == '-' && s[1] == '-' then CollapseDashes(s[1..])
    else [s[0]] + CollapseDashes(s[1..])
  }

  function CleanUsername(s: string): string {
    CollapseDashes(DashInvalid(RemoveDotPairs(TrimRight(TrimLeft(s)))))
  }

  // ---- the normal form ----

  predicate NoDouble(s: string, c: char) {
    forall i :: 0 <= i < |s| - 1 ==> s[i] != c || s[i + 1] != c
  }

  predicate Normal(s: string) {
    (forall i :: 0 <= i < |s| ==> Allowed(s[i])) && NoDouble(s, '.') && NoDouble(s, '-')
  }

  lemma ConsNoDouble(a: char, s: string, c: char)
    requires NoDouble(s, c) && (a != c || s == [] || s[0] != c)
    ensures NoDouble([a] + s, c)
  {
  }

  lemma {:induction false} RemoveDotPairsLeavesNone(s: string)
    ensures NoDouble(RemoveDotPairs(s), '.')
    ensures s != [] && s[0] != '.' ==> RemoveDotPairs(s) != [] && RemoveDotPairs(s)[0] == s[0]
  {
    if s != [] {
      if |s| > 1 && s[0] == '.' && s[1] == '.' {
        RemoveDotPairsLeavesNone(s[2..]);
      } else {
        RemoveDotPairsLeavesNone(s[1..]);
        ConsNoDouble(s[0], RemoveDotPairs(s[1..]), '.');
      }
    }
  }

  lemma {:induction false} CollapseKeeps(s: string)
    requires forall i :: 0 <= i < |s| ==> Allowed(s[i])
    requires NoDouble(s, '.')
    ensures Normal(CollapseDashes(s))
    ensures s != [] ==> CollapseDashes(s) != [] && CollapseDashes(s)[0] == s[0]
  {
    if s != [] {
      assert NoDouble(s[1..], '.') by {
        assert forall i :: 0 <= i < |s| - 1 ==> s[1..][i] == s[i + 1];
      }
      CollapseKeeps(s[1..]);
      if !(|s| > 1 && s[0] == '-' && s[1] == '-') {
        ConsNoDouble(s[0], CollapseDashes(s[1..]), '.');
        ConsNoDouble(s[0], CollapseDashes(s[1..]), '-');
      }
    }
  }

  lemma CleanIsNormal(s: string)
    ensures Normal(CleanUsername(s))
  {
    var r := RemoveDotPairs(TrimRight(TrimLeft(s)));
    RemoveDotPairsLeavesNone(TrimRight(TrimLeft(s)));
    var d := DashInvalid(r);
    assert NoDouble(d, '.') by {
      assert forall i :: 0 <= i < |r| ==> (d[i] == '.' ==> r[i] == '.');
    }
    CollapseKeeps(d);
  }

  lemma {:induction false} StagesFixNormal(s: string)
    requires Normal(s)
    ensures RemoveDotPairs(s) == s && CollapseDashes(s) == s
  {
    if s != [] {
      assert NoDouble(s[1..], '.') && NoDouble(s[1..], '-') by {
        assert forall i :: 0 <= i < |s| - 1 ==> s[1..][i] == s[i + 1];
      }
      StagesFixNormal(s[1..]);
      assert s == [s[0]] + s[1..];
      if |s| > 1 {
        assert s[0] != '.' || s[0 + 1] != '.';
        assert s[0] != '-' || s[0 + 1] != '-';
      }
    }
  }

  /** The names cleaning leaves alone are exactly those in the allowed alphabet with no ".." and no "--". */
  lemma FixedPointsAreNormal(s: string)
    ensures CleanUsername(s) == s <==> Normal(s)
  {
    CleanIsNormal(s);
    if Normal(s) {
      assert TrimLeft(s) == s && TrimRight(s) == s;
      StagesFixNormal(s);
      assert DashInvalid(s) == s;
    }
  }

  /** Cleaning twice is cleaning once, and its result is in normal form, so has no ".." and no '/'. */
  lemma CleaningIsIdempotent(s: string)
    ensures CleanUsername(CleanUsername(s)) == CleanUsername(s)
    ensures Normal(CleanUsername(s)) && '/' !in CleanUsername(s) && CleanUsername(s) != ".."
  {
    CleanIsNormal(s);
    FixedPointsAreNormal(CleanUsername(s));
  }

  function Dots(n: nat): string { seq(n, _ => '.') }

  lemma {:induction false} DropsPair(rest: string)
    ensures RemoveDotPairs(".." + rest) == RemoveDotPairs(rest)
  {
    assert (".." + rest)[2..] == rest;
  }

  lemma {:induction false} KeepsFirst(c: char, rest: string)
    requires c != '.' || rest == [] || rest[0] != '.'
    ensures RemoveDotPairs([c] + rest) == [c] + RemoveDotPairs(rest)
  {
    assert ([c] + rest)[1..] == rest;
  }

  lemma {:induction false} LeadingDotRun(n: nat, rest: string)
    requires rest == [] || rest[0] != '.'
    ensures RemoveDotPairs(Dots(n) + rest) == Dots(n % 2) + RemoveDotPairs(rest)
  {
    if n == 0 {
      assert Dots(0) + rest == rest;
    } else if n == 1 {
      assert Dots(1) == ['.'];
      KeepsFirst('.', rest);
    } else {
      assert Dots(n) + rest == ".." + (Dots(n - 2) + rest);
      DropsPair(Dots(n - 2) + rest);
      LeadingDotRun(n - 2, rest);
    }
  }

  /** Away from a dot the removal can be cut in two. */
  lemma {:induction false} RemoveDotPairsSplits(pre: string, t: string)
    requires pre == [] || pre[|pre| - 1] != '.'
    ensures RemoveDotPairs(pre + t) == RemoveDotPairs(pre) + RemoveDotPairs(t)
  {
    if pre == [] {
      assert pre + t == t;
    } else if |pre| > 1 && pre[0] == '.' && pre[1] == '.' {
      var rest := pre[2..];
      assert pre == ".." + rest && pre + t == ".." + (rest + t);
      DropsPair(rest);
      DropsPair(rest + t);
      RemoveDotPairsSplits(rest, t);
    } else {
      var c, rest := pre[0], pre[1..];
      assert pre == [c] + rest && pre + t == [c] + (rest + t);
      KeepsFirst(c, rest);
      KeepsFirst(c, rest + t);
      RemoveDotPairsSplits(rest, t);
    }
  }

  /** A run of dots, wherever it stands, is reduced to its parity. */
  lemma {:induction false} DotRunBecomesParity(pre: string, n: nat, rest: string)
    requires pre == [] || pre[|pre| - 1] != '.'
    requires rest == [] || rest[0] != '.'
    ensures RemoveDotPairs(pre + Dots(n) + rest) == RemoveDotPairs(pre) + Dots(n % 2) + RemoveDotPairs(rest)
  {
    assert pre + Dots(n) + rest == pre + (Dots(n) + rest);
    RemoveDotPairsSplits(pre, Dots(n) + rest);
    LeadingDotRun(n, rest);
  }

  // ---- what cleaning does to a name that needs it ----

  predicate AllSpaces(s: string) { forall i :: 0 <= i < |s| ==> s[i] == ' ' }

  predicate NoOuterSpace(s: string) { s != "" ==> s[0] != ' ' && s[|s| - 1] != ' ' }

  lemma {:induction false} TrimLeftOfSnoc(s: string)
    ensures TrimLeft(s + " ") == if AllSpaces(s) then "" else TrimLeft(s) + " "
    ensures AllSpaces(s) ==> TrimLeft(s) == ""
  {
    if s == "" {
      assert TrimLeft(s + " ") == TrimLeft((s + " ")[1..]);
    } else if s[0] == ' ' {
      assert (s + " ")[1..] == s[1..] + " ";
      TrimLeftOfSnoc(s[1..]);
      assert AllSpaces(s) <==> AllSpaces(s[1..]) by {
        assert s == [s[0]] + s[1..];
      }
    }
  }

  /** Spaces around a name make no difference. */
  lemma OuterSpacesDoNotMatter(s: string)
    ensures CleanUsername(" " + s) == CleanUsername(s) == CleanUsername(s + " ")
  {
    assert (" " + s)[1..] == s;
    TrimLeftOfSnoc(s);
    var t := TrimLeft(s);
    assert (t + " ")[..|t|] == t;
  }

  lemma {:induction false} NoSpaceToTrim(s: string)
    requires NoOuterSpace(s)
    ensures CleanUsername(s) == CollapseDashes(DashInvalid(RemoveDotPairs(s)))
  {
    assert TrimLeft(s) == s && TrimRight(s) == s;
  }

  /** A character cleaning turns into part of a dash. */
  predicate Dashed(c: char) { c == '-' || !Allowed(c) }

  lemma {:induction false} CollapseSplits(p: string, run: string, q: string)
    requires run != "" && forall i :: 0 <= i < |run| ==> run[i] == '-'
    requires (p != "" ==> p[|p| - 1] != '-') && (q != "" ==> q[0] != '-')
    ensures CollapseDashes(p + run + q) == CollapseDashes(p) + "-" + CollapseDashes(q)
    decreases |p|, |run|
  {
    var s := p + run + q;
    if p != "" {
      CollapseSplits(p[1..], run, q);
      assert s == [p[0]] + (p[1..] + run + q);
      assert s[1..] == p[1..] + run + q;
      if |p| == 1 {
        assert CollapseDashes(p) == [p[0]] + CollapseDashes([]);
      }
    } else if |run| > 1 {
      assert s[1..] == "" + run[1..] + q;
      CollapseSplits("", run[1..], q);
    } else {
      assert s[1..] == q;
    }
  }

  lemma {:induction false} NoPairsToRemove(s: string)
    requires NoDouble(s, '.')
    ensures RemoveDotPairs(s) == s
  {
    if s != "" {
      assert NoDouble(s[1..], '.') by {
        assert forall i :: 0 <= i < |s| - 1 ==> s[1..][i] == s[i + 1];
      }
      NoPairsToRemove(s[1..]);
      assert s == [s[0]] + s[1..];
      if |s| > 1 {
        assert s[0] != '.' || s[0 + 1] != '.';
      }
    }
  }

  /** Without outer spaces and ".." only the last two stages have work to do. */
  lemma {:induction false} LastStagesOnly(s: string)
    requires NoOuterSpace(s) && NoDouble(s, '.')
    ensures CleanUsername(s) == CollapseDashes(DashInvalid(s))
  {
    NoPairsToRemove(s);
    NoSpaceToTrim(s);
  }

  lemma PartsAreAlike(s: string, p: string, run: string, q: string)
    requires s == p + run + q && NoOuterSpace(s) && NoDouble(s, '.')
    requires (p != "" ==> !Dashed(p[|p| - 1])) && (q != "" ==> !Dashed(q[0]))
    ensures NoOuterSpace(p) && NoDouble(p, '.') && NoOuterSpace(q) && NoDouble(q, '.')
  {
    assert forall i :: 0 <= i < |p| ==> p[i] == s[i];
    assert forall i :: 0 <= i < |q| ==> q[i] == s[|p| + |run| + i];
  }

  lemma DashedParts(p: string, run: string, q: string)
    requires run != "" && forall i :: 0 <= i < |run| ==> Dashed(run[i])
    requires (p != "" ==> !Dashed(p[|p| - 1])) && (q != "" ==> !Dashed(q[0]))
    ensures CollapseDashes(DashInvalid(p + run + q)) ==
            CollapseDashes(DashInvalid(p)) + "-" + CollapseDashes(DashInvalid(q))
  {
    assert DashInvalid(p + run + q) == DashInvalid(p) + DashInvalid(run) + DashInvalid(q);
    CollapseSplits(DashInvalid(p), DashInvalid(run), DashInvalid(q));
  }

  /**
   In a name without outer spaces and "..", every longest stretch of dashes and characters outside the
   alphabet becomes one dash, and the parts on either side are cleaned on their own.
   */
  lemma StretchBecomesDash(p: string, run: string, q: string)
    requires NoOuterSpace(p + run + q) && NoDouble(p + run + q, '.')
    requires run != "" && forall i :: 0 <= i < |run| ==> Dashed(run[i])
    requires (p != "" ==> !Dashed(p[|p| - 1])) && (q != "" ==> !Dashed(q[0]))
    ensures CleanUsername(p + run + q) == CleanUsername(p) + "-" + CleanUsername(q)
  {
    PartsAreAlike(p + run + q, p, run, q);
    LastStagesOnly(p + run + q);
    LastStagesOnly(p);
    LastStagesOnly(q);
    DashedParts(p, run, q);
  }

  lemma {:induction false} LastIsKept(s: string)
    requires s != "" && s[|s| - 1] != '.'
    ensures RemoveDotPairs(s) != "" && RemoveDotPairs(s)[|RemoveDotPairs(s)| - 1] == s[|s| - 1]
  {
    var k := |s| - 1;
    if |s| > 1 && s[0] == '.' && s[1] == '.' {
      LastIsKept(s[2..]);
    } else if |s| > 1 {
      LastIsKept(s[1..]);
    }
  }

  lemma {:induction false} CollapseAtEnd(s: string)
    requires s != "" && s[|s| - 1] == '-'
    ensures CollapseDashes(s + "-") == CollapseDashes(s)
  {
    assert (s + "-")[1..] == s[1..] + "-";
    if |s| > 1 {
      CollapseAtEnd(s[1..]);
    } else {
      assert s == "-" && s[1..] + "-" == "-";
    }
  }

  lemma {:induction false} RunCountsByParity(pre: string, n: nat, rest: string)
    requires (pre != "" ==> pre[|pre| - 1] != '.') && (rest != "" ==> rest[0] != '.')
    ensures RemoveDotPairs(pre + Dots(n) + rest) == RemoveDotPairs(pre + Dots(n % 2) + rest)
  {
    DotRunBecomesParity(pre, n, rest);
    DotRunBecomesParity(pre, n % 2, rest);
  }

  lemma {:induction false} SameAfterRemoval(s: string, t: string)
    requires NoOuterSpace(s) && NoOuterSpace(t) && RemoveDotPairs(s) == RemoveDotPairs(t)
    ensures CleanUsername(s) == CleanUsername(t)
  {
    NoSpaceToTrim(s);
    NoSpaceToTrim(t);
  }

  /** The alphabet: what becomes of a name of one character. */
  lemma OneCharacter(c: char)
    ensures CleanUsername([c]) ==
            if c == ' ' then ""
            else if '0' <= c <= '9' || 'a' <= c <= 'z' || 'A' <= c <= 'Z'
                    || c == '@' || c == '_' || c == '-' || c == '.' then [c]
            else "-"
  {
    if c == ' ' {
      assert [c][1..] == "" && TrimLeft([c]) == "";
      assert RemoveDotPairs("") == "" && DashInvalid("") == "" && CollapseDashes("") == "";
    } else {
      NoSpaceToTrim([c]);
      assert RemoveDotPairs([c]) == [c];
    }
  }

  /** A run of dots counts for its parity, as long as that leaves no space at either end. */
  lemma DotParityOfName(pre: string, n: nat, rest: string)
    requires (pre != "" ==> pre[|pre| - 1] != '.') && (rest != "" ==> rest[0] != '.')
    requires NoOuterSpace(pre + Dots(n) + rest) && NoOuterSpace(pre + Dots(n % 2) + rest)
    ensures CleanUsername(pre + Dots(n) + rest) == CleanUsername(pre + Dots(n % 2) + rest)
  {
    RunCountsByParity(pre, n, rest);
    SameAfterRemoval(pre + Dots(n) + rest, pre + Dots(n % 2) + rest);
  }

  lemma {:induction false} EvenRunGoes(pre: string, n: nat)
    requires pre != "" && pre[|pre| - 1] != '.'
    ensures RemoveDotPairs(pre + Dots(2 * n)) == RemoveDotPairs(pre)
  {
    RunCountsByParity(pre, 2 * n, "");
    assert pre + Dots(2 * n) + "" == pre + Dots(2 * n) && pre + Dots(2 * n % 2) + "" == pre;
  }

  lemma {:induction false} DashAtEndCollapses(pre: string)
    requires pre != "" && pre[|pre| - 1] == ' '
    ensures CollapseDashes(DashInvalid(RemoveDotPairs(pre + "-"))) == CollapseDashes(DashInvalid(RemoveDotPairs(pre)))
  {
    RemoveDotPairsSplits(pre, "-");
    assert RemoveDotPairs("-") == "-";
    LastIsKept(pre);
    var r := RemoveDotPairs(pre);
    assert DashInvalid(r + "-") == DashInvalid(r) + "-";
    CollapseAtEnd(DashInvalid(r));
  }

  /** A space at the end that only the removal of dots lays bare is not trimmed: it becomes a dash. */
  lemma BaredSpaceBecomesDash(pre: string, n: nat)
    requires pre != "" && pre[0] != ' ' && pre[|pre| - 1] == ' ' && n > 0
    ensures CleanUsername(pre + Dots(2 * n)) == CleanUsername(pre + "-")
  {
    EvenRunGoes(pre, n);
    NoSpaceToTrim(pre + Dots(2 * n));
    NoSpaceToTrim(pre + "-");
    DashAtEndCollapses(pre);
  }

  // ---- MakeUserDir ----

  predicate IsSpace(c: char) {
    || c in " \t\n\r\U{000B}\U{000C}\U{0085}\U{00A0}\U{1680}\U{2028}\U{2029}\U{202F}\U{205F}\U{3000}"
    || '\U{2000}' <= c <= '\U{200A}'
  }

  function TrimSpaceLeft(s: string): string {
    if s != [] && IsSpace(s[0]) then TrimSpaceLeft(s[1..]) else s
  }

  function TrimSpaceRight(s: string): string {
    if s != [] && IsSpace(s[|s| - 1]) then TrimSpaceRight(s[..|s| - 1]) else s
  }

  function ScopeOf(userScope: string): string {
    var s := TrimSpaceRight(TrimSpaceLeft(userScope));
    if s == "" || s == "./" then "." else s
  }

  lemma {:induction false} SpaceLeftTrims(a: string, rest: string)
    requires (forall i :: 0 <= i < |a| ==> IsSpace(a[i])) && (rest != "" ==> !IsSpace(rest[0]))
    ensures TrimSpaceLeft(a + rest) == rest
  {
    if a == "" {
      assert a + rest == rest;
    } else {
      assert (a + rest)[1..] == a[1..] + rest;
      SpaceLeftTrims(a[1..], rest);
    }
  }

  lemma {:induction false} SpaceRightTrims(core: string, b: string)
    requires (forall i :: 0 <= i < |b| ==> IsSpace(b[i])) && (core != "" ==> !IsSpace(core[|core| - 1]))
    ensures TrimSpaceRight(core + b) == core
  {
    if b == "" {
      assert core + b == core;
    } else {
      var k := |b| - 1;
      assert (core + b)[..|core + b| - 1] == core + b[..k];
      SpaceRightTrims(core, b[..k]);
    }
  }

  /** The scope is what lies between the white space around it; nothing, and "./", mean the root directory ".". */
  lemma ScopeIsTrimmed(a: string, core: string, b: string)
    requires (forall i :: 0 <= i < |a| ==> IsSpace(a[i])) && (forall i :: 0 <= i < |b| ==> IsSpace(b[i]))
    requires core != "" ==> !IsSpace(core[0]) && !IsSpace(core[|core| - 1])
    ensures ScopeOf(a + core + b) == if core == "" || core == "./" then "." else core
  {
    if core == "" {
      assert a + core + b == (a + b) + "";
      SpaceLeftTrims(a + b, "");
    } else {
      assert a + core + b == a + (core + b);
      SpaceLeftTrims(a, core + b);
      SpaceRightTrims(core, b);
    }
  }

  /** Of the ASCII characters, space and tab to carriage return are white space. */
  lemma OneCharacterScope(c: char)
    requires c < '\U{0080}' && c != '.'
    ensures ScopeOf([c]) == if c == ' ' || '\t' <= c <= '\r' then "." else [c]
  {
    if IsSpace(c) {
      ScopeIsTrimmed([c], "", "");
      assert [c] + "" + "" == [c];
    } else {
      ScopeIsTrimmed("", [c], "");
      assert "" + [c] + "" == [c];
    }
  }

  datatype DirError = MkdirFailed | InvalidUser

  /** What follows the last slash. */
  function LastComponent(path: string): string {
    if path == [] || path[|path| - 1] == '/' then []
    else LastComponent(path[..|path| - 1]) + [path[|path| - 1]]
  }

  lemma {:induction false} LastComponentOf(dir: string, name: string)
    requires '/' !in name
    ensures LastComponent(dir + "/" + name) == name
  {
    var path := dir + "/" + name;
    if name != [] {
      assert path[..|path| - 1] == dir + "/" + name[..|name| - 1];
      LastComponentOf(dir, name[..|name| - 1]);
      assert name == name[..|name| - 1] + [name[|name| - 1]];
    }
  }

  /**
   `mkdirOk` is whether MkdirAll succeeds; `made` lists the directories asked for. A path built from the
   user name always ends in a component in normal form that is not empty, a dot, two dots or a dash.
   */
  method MakeUserDir(createUserDir: bool, defaultScope: string, username: string, userScope: string, mkdirOk: bool)
    returns (path: string, err: Option<DirError>, made: seq<string>)
    ensures var scope := ScopeOf(userScope);
            if !createUserDir then path == scope && err == None && made == []
            else if scope != defaultScope then
              && path == scope
              && made == (if scope == "." then [] else [scope])
              && (err == if scope != "." && !mkdirOk then Some(MkdirFailed) else None)
            else if CleanUsername(username) in {"", "-", "."} then path == "" && err == Some(InvalidUser) && made == []
            else
              && path == defaultScope + "/users/" + CleanUsername(username)
              && made == [path]
              && (err == if mkdirOk then None else Some(MkdirFailed))
    ensures createUserDir && ScopeOf(userScope) == defaultScope && made != [] ==>
              && Normal(LastComponent(path))
              && LastComponent(path) == CleanUsername(username)
              && LastComponent(path) !in {"", "-", ".", ".."}
  {
    path := ScopeOf(userScope);
    made, err := [], None;
    if !createUserDir {
      return;
    }
    if path != defaultScope {
      if path != "." {
        made := [path];
        if !mkdirOk {
          err := Some(MkdirFailed);
        }
      }
      return;
    }
    var name := CleanUsername(username);
    if name == "" || name == "-" || name == "." {
      return "", Some(InvalidUser), [];
    }
    CleaningIsIdempotent(username);
    LastComponentOf(defaultScope + "/users", name);
    assert defaultScope + "/users" + "/" + name == defaultScope + "/users/" + name;
    path := defaultScope + "/users/" + name;
    made := [path];
    if !mkdirOk {
      err := Some(MkdirFailed);
    }
  }
}
