/**
 The loop of redirect_to_file that creates the leading directories of a path: it cuts the path at each
 slash by a NUL, calls mkdir on what is left, and puts the slash back.
 */
module LeadingDirs {
  import opened Common
  import opened Tokenizer

  /** The prefixes of text that end before a slash at or after position k, shortest first. */
  function DirPrefixes(text: string, k: nat): seq<string>
    decreases |text| - k
  {
    if k >= |text| then []
    else (if text[k] == '/' then [text[..k]] else []) + DirPrefixes(text, k + 1)
  }

  /** They are exactly the prefixes before a slash, each once, in increasing length. */
  lemma {:induction false} DirPrefixesAreAll(text: string, k: nat)
    ensures forall p :: p in DirPrefixes(text, k) <==> exists i :: k <= i < |text| && text[i] == '/' && p == text[..i]
    ensures forall i, j :: 0 <= i < j < |DirPrefixes(text, k)| ==> |DirPrefixes(text, k)[i]| < |DirPrefixes(text, k)[j]|
    ensures forall i :: 0 <= i < |DirPrefixes(text, k)| ==> k <= |DirPrefixes(text, k)[i]| < |text|
    decreases |text| - k
  {
    if k < |text| {
      DirPrefixesAreAll(text, k + 1);
      var here := if text[k] == '/' then [text[..k]] else [];
      assert DirPrefixes(text, k) == here + DirPrefixes(text, k + 1);
    }
  }

  lemma {:induction false} SkipToSlash(text: string, from: nat, to: nat)
    requires from <= to <= |text|
    requires forall i :: from <= i < to ==> text[i] != '/'
    ensures DirPrefixes(text, from) == DirPrefixes(text, to)
    decreases |text| - from
  {
    if from < to {
      SkipToSlash(text, from + 1, to);
    }
  }

  ghost predicate HoldsText(path: array<char>, text: string)
    reads path
  {
    && |text| < path.Length && path[|text|] == NUL
    && forall i :: 0 <= i < |text| ==> path[i] == text[i] && text[i] != NUL
  }

  /** strchr(path + from, '/'). */
  method FindSlash(path: array<char>, ghost text: string, from: nat) returns (p: Option<nat>)
    requires HoldsText(path, text) && from <= |text|
    ensures p.Some? ==>
              && from <= p.value < |text| && text[p.value] == '/'
              && forall i :: from <= i < p.value ==> text[i] != '/'
    ensures p.None? ==> forall i :: from <= i < |text| ==> text[i] != '/'
  {
    var i := from;
    while path[i] != NUL
      invariant from <= i <= |text|
      invariant forall j :: from <= j < i ==> text[j] != '/'
      decreases |text| - i
    {
      if path[i] == '/' {
        return Some(i);
      }
      i := i + 1;
    }
    p := None;
  }

  lemma CutReads(path: seq<char>, text: string, i: nat)
    requires i < |text| < |path| && forall j :: 0 <= j < |text| ==> path[j] == text[j] && text[j] != NUL
    ensures CString(path[i := NUL], 0) == text[..i]
  {
    var cut := path[i := NUL];
    CStringUpTo(cut, 0, i);
    assert cut[0..i] == text[..i];
  }

  /** One mkdir: the name it is given, with the buffer put back as it was. */
  method CutAndRestore(path: array<char>, ghost text: string, i: nat) returns (name: string)
    requires HoldsText(path, text) && i < |text| && text[i] == '/'
    modifies path
    ensures path[..] == old(path[..]) && name == text[..i]
  {
    CutReads(path[..], text, i);
    path[i] := NUL;
    assert path[..] == old(path[..])[i := NUL];
    name := CString(path[..], 0);
    path[i] := '/';
  }

  /**
   For every path, repeated and trailing slashes included, the loop ends with the buffer as it was, having
   called mkdir on exactly the prefixes before each slash but a leading one, in increasing length. Each
   name is what the path reads as at the moment of the call.
   */
  method MakeLeadingDirs(path: array<char>, ghost text: string) returns (made: seq<string>)
    requires HoldsText(path, text)
    modifies path
    ensures path[..] == old(path[..])
    ensures made == DirPrefixes(text, 1)
  {
    made := [];
    var chp: Option<nat> := Some(0);
    if path[0] == '/' {
      chp := Some(1);
    }
    assert DirPrefixes(text, chp.value) == DirPrefixes(text, 1);
    while chp.Some? && path[chp.value] != NUL
      invariant path[..] == old(path[..]) && HoldsText(path, text)
      invariant chp.Some? ==> chp.value <= |text| && made + DirPrefixes(text, chp.value) == DirPrefixes(text, 1)
      invariant chp.None? ==> made == DirPrefixes(text, 1)
      decreases chp.Some?, if chp.Some? then |text| - chp.value else 0
    {
      var from := chp.value;
      chp := FindSlash(path, text, from);
      SkipToSlash(text, from, if chp.Some? then chp.value else |text|);
      if chp.Some? {
        var name := CutAndRestore(path, text, chp.value);
        made := made + [name];
        chp := Some(chp.value + 1);
      }
    }
  }
}
