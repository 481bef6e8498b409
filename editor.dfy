/**
 * The two helpers of the graph editor (Editor.c) that the commands are built
 * on: cutting the next word out of a command line, and finding, among the
 * edges incident to one vertex, one that reaches a vertex of a given name.
 */
module Editor {
  import opened Seqs
  import opened Graphs

  /** A word ends at a line feed, the string terminator or a space. */
  predicate IsSeparator(c: char)
  {
    c == '\n' || c == '\0' || c == ' '
  }

  /** No character of w ends a word. */
  predicate NoSeparator(w: seq<char>)
  {
    forall k :: 0 <= k < |w| ==> !IsSeparator(w[k])
  }

  /**
   * The length of the word at the front of s when at most `limit`
   * characters are read: the position of the first separator, or `limit`
   * (or the end of s) when none comes earlier.
   */
  function WordEnd(s: seq<char>, limit: nat): (n: nat)
    ensures n <= limit && n <= |s| && NoSeparator(s[..n])
    ensures n < limit && n < |s| ==> IsSeparator(s[n])
  {
    if limit == 0 || |s| == 0 || IsSeparator(s[0]) then 0
    else
      var n := 1 + WordEnd(s[1..], limit - 1);
      assert s[..n] == [s[0]] + s[1..][..n - 1];
      n
  }

  /**
   * A word followed by a separator is read back whole: the round trip of
   * writing a command as words joined by separators and cutting it again.
   */
  lemma {:induction false} WordEndJoined(w: seq<char>, sep: char, rest: seq<char>, limit: nat)
    requires NoSeparator(w) && IsSeparator(sep) && |w| < limit
    ensures WordEnd(w + [sep] + rest, limit) == |w|
  {
    var s := w + [sep] + rest;
    if w == [] {
      assert s[0] == sep;
    } else {
      assert s[1..] == w[1..] + [sep] + rest;
      assert NoSeparator(w[1..]) by {
        assert forall k :: 0 <= k < |w| - 1 ==> w[1..][k] == w[k + 1];
      }
      assert !IsSeparator(s[0]) by {
        assert s[0] == w[0];
      }
      WordEndJoined(w[1..], sep, rest, limit - 1);
    }
  }

  /**
   * A word without separators as long as the limit is cut at the limit,
   * whatever follows it.
   */
  lemma {:induction false} WordEndAtLimit(w: seq<char>, rest: seq<char>)
    requires NoSeparator(w)
    ensures WordEnd(w + rest, |w|) == |w|
  {
    if w != [] {
      var s := w + rest;
      assert s[1..] == w[1..] + rest;
      assert NoSeparator(w[1..]) by {
        assert forall k :: 0 <= k < |w| - 1 ==> w[1..][k] == w[k + 1];
      }
      assert !IsSeparator(s[0]) by {
        assert s[0] == w[0];
      }
      WordEndAtLimit(w[1..], rest);
    }
  }

  /**
   * `parseWord(startingPoint, readSize, toRead, word)`: copies the word that
   * starts at toRead[startingPoint], reading at most readSize characters,
   * into word, terminates it with '\0', and returns its length plus one
   * (so 1 means an empty word: a missing argument for the commands).
   * toRead must be readable up to that point: either readSize characters
   * are there or a terminator comes first.
   */
  method ParseWord(start: nat, readSize: nat, toRead: array<char>, word: array<char>) returns (n: nat)
    requires start + readSize <= toRead.Length ||
             exists k :: start <= k < toRead.Length && toRead[k] == '\0'
    requires readSize < word.Length && toRead != word
    modifies word
    ensures start <= toRead.Length
    ensures n == WordEnd(toRead[start..], readSize) + 1
    ensures forall k :: 0 <= k < n - 1 ==> word[k] == toRead[start + k]
    ensures word[n - 1] == '\0'
    ensures forall k :: n <= k < word.Length ==> word[k] == old(word[k])
  {
    ghost var s := toRead[start..];
    ghost var nul: int := -1;
    if start + readSize > toRead.Length {
      nul :| start <= nul < toRead.Length && toRead[nul] == '\0';
    }
    var i := 0;
    while i < readSize
      invariant 0 <= i <= readSize && start + i <= toRead.Length
      invariant nul < 0 ==> start + readSize <= toRead.Length
      invariant nul >= 0 ==> start + i <= nul < toRead.Length && toRead[nul] == '\0'
      invariant NoSeparator(s[..i])
      invariant forall k :: 0 <= k < i ==> word[k] == toRead[start + k]
      invariant forall k :: i <= k < word.Length ==> word[k] == old(word[k])
    {
      var c := toRead[start + i];
      assert i < |s| && s[i] == c;
      if IsSeparator(c) {
        word[i] := '\0';
        SeparatorEnds(s, readSize, i);
        return i + 1;
      }
      word[i] := c;
      NoSeparatorExtend(s, i);
      i := i + 1;
    }
    word[readSize] := '\0';
    SeparatorEnds(s, readSize, readSize);
    return readSize + 1;
  }

  /** A separator-free prefix grows by one character that is not a separator. */
  lemma NoSeparatorExtend(s: seq<char>, i: nat)
    requires i < |s| && NoSeparator(s[..i]) && !IsSeparator(s[i])
    ensures NoSeparator(s[..i + 1])
  {
    assert s[..i + 1] == s[..i] + [s[i]];
  }

  /** A separator-free prefix ending at a separator, or at the limit, is the word. */
  lemma {:induction false} SeparatorEnds(s: seq<char>, limit: nat, i: nat)
    requires i <= limit && i <= |s| && NoSeparator(s[..i])
    requires i < limit ==> i < |s| && IsSeparator(s[i])
    ensures WordEnd(s, limit) == i
  {
    if i > 0 {
      var p := s[..i];
      assert s[1..][..i - 1] == p[1..];
      assert NoSeparator(p[1..]) by {
        assert forall k :: 0 <= k < |p| - 1 ==> p[1..][k] == p[k + 1];
      }
      assert !IsSeparator(s[0]) by {
        assert s[0] == p[0];
      }
      SeparatorEnds(s[1..], limit - 1, i - 1);
    }
  }

  /** Edge e has an endpoint whose name is `name`. */
  predicate EndNamed(e: Edge, names: seq<string>, name: string)
    requires e.u < |names| && e.v < |names|
  {
    names[e.u] == name || names[e.v] == name
  }

  /**
   * `getEdgeByVertex(issuedEdges, v2)`: the first edge of the list `issued`
   * (indices into the edge array) with an endpoint named like v2, or None.
   */
  method GetEdgeByVertex(g: Graph, issued: seq<nat>, name: string) returns (r: Option<nat>)
    requires g.Valid() && EndsIn(g.Edges(), g.nbv)
    requires forall t :: 0 <= t < |issued| ==> issued[t] < g.nbe
    ensures r.Some? ==> exists t :: 0 <= t < |issued| && issued[t] == r.value &&
                          EndNamed(g.Edges()[r.value], Names(g.Vertices()), name) &&
                          forall s :: 0 <= s < t ==> !EndNamed(g.Edges()[issued[s]], Names(g.Vertices()), name)
    ensures r.None? ==> forall t :: 0 <= t < |issued| ==> !EndNamed(g.Edges()[issued[t]], Names(g.Vertices()), name)
  {
    ghost var es, names := g.Edges(), Names(g.Vertices());
    var i := 0;
    while i < |issued|
      invariant 0 <= i <= |issued|
      invariant forall s :: 0 <= s < i ==> !EndNamed(es[issued[s]], names, name)
    {
      var e := g.edges[issued[i]];
      assert e == es[issued[i]];
      if g.vertices[e.u].name == name || g.vertices[e.v].name == name {
        assert EndNamed(es[issued[i]], names, name);
        return Some(issued[i]);
      }
      i := i + 1;
    }
    return None;
  }

  /**
   * Used as the `unlink` command does, on the edges incident to vertex x:
   * the edge found touches x and has an endpoint called `name`; none is
   * found exactly when no edge touching x has such an endpoint.
   */
  lemma IncidentEdgeByName(es: seq<Edge>, names: seq<string>, x: nat, name: string)
    requires EndsIn(es, |names|)
    ensures var issued := Incident(es, x);
            (forall t :: 0 <= t < |issued| ==> !EndNamed(es[issued[t]], names, name)) <==>
            (forall k :: 0 <= k < |es| && Touches(es[k], x) ==> !EndNamed(es[k], names, name))
  {
    var issued := Incident(es, x);
    if exists k :: 0 <= k < |es| && Touches(es[k], x) && EndNamed(es[k], names, name) {
      var k :| 0 <= k < |es| && Touches(es[k], x) && EndNamed(es[k], names, name);
      assert k in issued;
      var t :| 0 <= t < |issued| && issued[t] == k;
    }
  }
}
