/** Single mode (`processSingularFile`): the whole source, with its line
    feeds removed, is one JSON document on line 1. */
module SingleMode {
  import opened Streams
  import opened Report

  /** `bytes.Split(s, [sep])`: the pieces between the occurrences of `sep`,
      one more than there are occurrences. */
  function Split(s: Bytes, sep: byte): (pieces: seq<Bytes>)
    ensures |pieces| >= 1
    decreases |s|
  {
    if s == [] then [[]]
    else
      var tail := Split(s[1..], sep);
      if s[0] == sep then [[]] + tail
      else [[s[0]] + tail[0]] + tail[1..]
  }

  /** `bytes.Join(pieces, sep)`. */
  function Join(pieces: seq<Bytes>, sep: Bytes): Bytes
    decreases |pieces|
  {
    if pieces == [] then []
    else if |pieces| == 1 then pieces[0]
    else pieces[0] + sep + Join(pieces[1..], sep)
  }

  lemma JoinCons(p: Bytes, ps: seq<Bytes>, sep: Bytes)
    ensures Join([p] + ps, sep) == if ps == [] then p else p + sep + Join(ps, sep)
  {
    assert ([p] + ps)[0] == p && ([p] + ps)[1..] == ps;
  }

  /** `s` with every `x` deleted and every other byte kept, in order. */
  function Without(s: Bytes, x: byte): (r: Bytes)
    ensures x !in r
    decreases |s|
  {
    if s == [] then [] else (if s[0] == x then [] else [s[0]]) + Without(s[1..], x)
  }

  /** Deleting keeps the multiplicity of every other byte. */
  lemma {:induction false} WithoutKeeps(s: Bytes, x: byte)
    ensures multiset(Without(s, x)) == multiset(s)[x := 0]
    decreases |s|
  {
    if s != [] {
      assert s == [s[0]] + s[1..];
      WithoutKeeps(s[1..], x);
    }
  }

  /** The first step of `Split`: a separator starts a new piece, any other
      byte is put in front of the first piece. */
  lemma SplitCons(s: Bytes, sep: byte)
    requires s != []
    ensures var tail := Split(s[1..], sep);
      Split(s, sep) == if s[0] == sep then [[]] + tail else [[s[0]] + tail[0]] + tail[1..]
  {
  }

  /** Splitting cuts at every separator and only there. */
  lemma {:induction false} SplitPieces(s: Bytes, sep: byte)
    ensures |Split(s, sep)| == multiset(s)[sep] + 1
    ensures forall i :: 0 <= i < |Split(s, sep)| ==> sep !in Split(s, sep)[i]
    decreases |s|
  {
    if s != [] {
      assert s == [s[0]] + s[1..];
      SplitPieces(s[1..], sep);
      SplitCons(s, sep);
    }
  }

  /** Joining the pieces with the separator gives the input back. */
  lemma {:induction false} SplitJoin(s: Bytes, sep: byte)
    ensures Join(Split(s, sep), [sep]) == s
    decreases |s|
  {
    if s != [] {
      var tail := Split(s[1..], sep);
      SplitJoin(s[1..], sep);
      SplitCons(s, sep);
      JoinCons(tail[0], tail[1..], [sep]);
      assert tail == [tail[0]] + tail[1..];
      if s[0] == sep {
        JoinCons([], tail, [sep]);
      } else {
        JoinCons([s[0]] + tail[0], tail[1..], [sep]);
      }
      assert s == [s[0]] + s[1..];
    }
  }

  /** Joining the pieces with nothing between them deletes the separators. */
  lemma {:induction false} SplitJoinEmpty(s: Bytes, sep: byte)
    ensures Join(Split(s, sep), []) == Without(s, sep)
    decreases |s|
  {
    if s != [] {
      var tail := Split(s[1..], sep);
      SplitJoinEmpty(s[1..], sep);
      SplitCons(s, sep);
      JoinCons(tail[0], tail[1..], []);
      assert tail == [tail[0]] + tail[1..];
      if s[0] == sep {
        JoinCons([], tail, []);
      } else {
        JoinCons([s[0]] + tail[0], tail[1..], []);
      }
    }
  }

  /** The document single mode formats: the input with its line feeds
      deleted, as `bytes.Join(bytes.Split(b, newline), nil)` computes it. */
  function StripNewlines(b: Bytes): (r: Bytes)
    ensures r == Without(b, NL)
    ensures NL !in r
  {
    SplitJoinEmpty(b, NL);
    Join(Split(b, NL), [])
  }

  /** `processSingularFile`: a failed read gives status 2 and nothing is
      formatted; otherwise the stripped input is formatted once, as line 1. */
  function ProcessSingularFile(src: Source, indent: string, json: JsonIndent): (r: Outcome)
    requires OffsetsInRange(json)
    ensures src.broken ==> r == ReadFailure
    ensures !src.broken ==> r.log.calls == [Call(Without(src.data, NL), 1)]
    ensures !src.broken ==> (r.status == 0 <==> json(Without(src.data, NL), indent).Indented?)
    ensures !src.broken ==> r.status == 0 || r.status == 1
  {
    if src.broken then ReadFailure
    else IndentAndPrint(StripNewlines(src.data), 1, indent, json)
  }
}
