/** How the gateway turns the path of a request into the path its backend expects. */
module PathRewrite {
  import opened Wrappers
  import opened Strings

  const SLASH := '/'

  // ---------- Splitting and joining paths ----------

  function TrimLeft(s: string): (r: string)
    ensures r != "" ==> r[0] != SLASH
  {
    if s != "" && s[0] == SLASH then TrimLeft(s[1..]) else s
  }

  function TrimRight(s: string): (r: string)
    ensures r <= s
    ensures r != "" ==> r[|r| - 1] != SLASH
  {
    if s != "" && s[|s| - 1] == SLASH then TrimRight(s[..|s| - 1]) else s
  }

  function Trim(s: string): string {
    TrimRight(TrimLeft(s))
  }

  /** The pieces between slashes; one more piece than there are slashes. */
  function Pieces(s: string): (pieces: seq<string>)
    ensures |pieces| > 0 && forall p | p in pieces :: SLASH !in p
  {
    if s == "" then [""]
    else if s[0] == SLASH then [""] + Pieces(s[1..])
    else
      var rest := Pieces(s[1..]);
      [[s[0]] + rest[0]] + rest[1..]
  }

  function Split(path: string): seq<string> {
    if Trim(path) == "" then [] else Pieces(Trim(path))
  }

  /** What a path can be split into: no slashes inside, and no empty piece at either end. */
  predicate Segments(pieces: seq<string>) {
    && (forall p | p in pieces :: SLASH !in p)
    && (pieces != [] ==> pieces[0] != "" && pieces[|pieces| - 1] != "")
  }

  lemma {:induction false} PiecesOfFirst(piece: string, s: string)
    requires SLASH !in piece
    ensures Pieces(piece + s) == [piece + Pieces(s)[0]] + Pieces(s)[1..]
    decreases |piece|
  {
    if piece == "" {
      assert piece + s == s && piece + Pieces(s)[0] == Pieces(s)[0];
    } else {
      assert (piece + s)[1..] == piece[1..] + s;
      PiecesOfFirst(piece[1..], s);
      assert [piece[0]] + (piece[1..] + Pieces(s)[0]) == piece + Pieces(s)[0];
    }
  }

  lemma PiecesAfterSlash(s: string)
    ensures Pieces([SLASH] + s) == [""] + Pieces(s)
  {
    assert ([SLASH] + s)[1..] == s;
  }

  lemma {:induction false} PiecesOfJoin(pieces: seq<string>)
    requires pieces != [] && forall p | p in pieces :: SLASH !in p
    ensures Pieces(Join(pieces, SLASH)) == pieces
    decreases |pieces|
  {
    assert pieces[0] in pieces && pieces[0] + "" == pieces[0];
    if |pieces| == 1 {
      PiecesOfFirst(pieces[0], "");
    } else {
      var rest := [SLASH] + Join(pieces[1..], SLASH);
      PiecesOfJoin(pieces[1..]);
      PiecesAfterSlash(Join(pieces[1..], SLASH));
      PiecesOfFirst(pieces[0], rest);
      assert Join(pieces, SLASH) == pieces[0] + rest;
    }
  }

  lemma {:induction false} JoinOfPieces(s: string)
    ensures Join(Pieces(s), SLASH) == s
  {
    if s != "" {
      JoinOfPieces(s[1..]);
      var rest := Pieces(s[1..]);
      if s[0] == SLASH {
        assert ([""] + rest)[1..] == rest;
      } else {
        assert ([[s[0]] + rest[0]] + rest[1..])[1..] == rest[1..];
      }
    }
  }

  lemma {:induction false} EndsOfJoin(pieces: seq<string>)
    requires pieces != [] && Segments(pieces)
    ensures Join(pieces, SLASH) != "" && Join(pieces, SLASH)[0] != SLASH && Join(pieces, SLASH)[|Join(pieces, SLASH)| - 1] != SLASH
    decreases |pieces|
  {
    assert pieces[0] in pieces && pieces[|pieces| - 1] in pieces;
    LastOfJoin(pieces);
  }

  lemma {:induction false} LastOfJoin(pieces: seq<string>)
    requires pieces != [] && pieces[|pieces| - 1] != ""
    ensures Join(pieces, SLASH) != ""
    ensures var last := pieces[|pieces| - 1]; Join(pieces, SLASH)[|Join(pieces, SLASH)| - 1] == last[|last| - 1]
    decreases |pieces|
  {
    if |pieces| > 1 {
      LastOfJoin(pieces[1..]);
    }
  }

  lemma NothingToTrim(s: string)
    requires s != "" && s[0] != SLASH && s[|s| - 1] != SLASH
    ensures Trim([SLASH] + s) == s
  {
    assert ([SLASH] + s)[1..] == s;
    assert TrimLeft([SLASH] + s) == TrimLeft(s) == s;
  }

  /** Joining any segments and splitting the path again gives them back. */
  lemma SplitOfJoin(pieces: seq<string>)
    requires Segments(pieces)
    ensures Split([SLASH] + Join(pieces, SLASH)) == pieces
  {
    assert ([SLASH] + Join(pieces, SLASH))[1..] == Join(pieces, SLASH);
    if pieces != [] {
      EndsOfJoin(pieces);
      PiecesOfJoin(pieces);
      NothingToTrim(Join(pieces, SLASH));
      assert Trim([SLASH] + Join(pieces, SLASH)) != "";
    } else {
      assert ([SLASH] + Join(pieces, SLASH))[1..] == "";
      assert TrimLeft([SLASH] + Join(pieces, SLASH)) == TrimLeft("") == "";
    }
  }

  lemma EndsOfPieces(s: string)
    requires s != ""
    ensures Pieces(s)[0] == "" <==> s[0] == SLASH
    ensures Pieces(s)[|Pieces(s)| - 1] == "" <==> s[|s| - 1] == SLASH
  {
    if |s| > 1 {
      EndsOfPieces(s[1..]);
    }
  }

  /** Splitting any path gives segments, and joining them gives the path without the slashes around it. */
  lemma JoinOfSplit(path: string)
    ensures Segments(Split(path)) && Join(Split(path), SLASH) == Trim(path)
  {
    JoinOfPieces(Trim(path));
    if Trim(path) != "" {
      assert Trim(path) <= TrimLeft(path);
      EndsOfPieces(Trim(path));
    }
  }

  // ---------- Patterns ----------

  predicate IsParam(segment: string) {
    |segment| >= 2 && segment[0] == '{' && segment[|segment| - 1] == '}'
  }

  function Name(segment: string): string
    requires IsParam(segment)
  {
    segment[1..|segment| - 1]
  }

  predicate Matches(segments: seq<string>, pattern: seq<string>) {
    |segments| == |pattern| && forall i :: 0 <= i < |pattern| && !IsParam(pattern[i]) ==> segments[i] == pattern[i]
  }

  /** The value of every parameter of the pattern; of two with the same name the later one counts. */
  function Bindings(segments: seq<string>, pattern: seq<string>): map<string, string>
    requires |segments| == |pattern|
  {
    if pattern == [] then map[]
    else
      var last := |pattern| - 1;
      var params := Bindings(segments[..last], pattern[..last]);
      if IsParam(pattern[last]) then params[Name(pattern[last]) := segments[last]] else params
  }

  function FillOne(segment: string, params: map<string, string>): string {
    if IsParam(segment) && Name(segment) in params then params[Name(segment)] else segment
  }

  function Fill(pattern: seq<string>, params: map<string, string>): seq<string> {
    seq(|pattern|, i requires 0 <= i < |pattern| => FillOne(pattern[i], params))
  }

  /** A slash in front of every segment, and "/" where there is none. */
  function Canonical(pieces: seq<string>): string {
    [SLASH] + Join(pieces, SLASH)
  }

  function Rewrite(path: string, endpoint: string, backend: string): string {
    if backend == "" || backend == endpoint then path
    else if !Matches(Split(path), Split(endpoint)) then backend
    else Canonical(Fill(Split(backend), Bindings(Split(path), Split(endpoint))))
  }

  method RewritePath(requestPath: string, endpointPattern: string, backendPattern: string) returns (path: string)
    ensures path == Rewrite(requestPath, endpointPattern, backendPattern)
  {
    if backendPattern == "" || backendPattern == endpointPattern {
      return requestPath;
    }
    var params := ExtractParams(Split(requestPath), Split(endpointPattern));
    if params.None? {
      return backendPattern;
    }
    var backendSegments := FillIn(Split(backendPattern), params.value);
    path := Canonical(backendSegments);
  }

  /** The first loop: the values of the parameters, or nothing when the path does not fit. */
  method ExtractParams(requestSegments: seq<string>, endpointSegments: seq<string>)
    returns (params: Option<map<string, string>>)
    ensures params.Some? <==> Matches(requestSegments, endpointSegments)
    ensures params.Some? ==> params.value == Bindings(requestSegments, endpointSegments)
  {
    if |requestSegments| != |endpointSegments| {
      return None;
    }
    var found: map<string, string> := map[];
    for i := 0 to |endpointSegments|
      invariant found == Bindings(requestSegments[..i], endpointSegments[..i])
      invariant Matches(requestSegments[..i], endpointSegments[..i])
    {
      var ep, rp := endpointSegments[i], requestSegments[i];
      assert requestSegments[..i + 1][..i] == requestSegments[..i];
      assert endpointSegments[..i + 1][..i] == endpointSegments[..i];
      if IsParam(ep) {
        found := found[Name(ep) := rp];
      } else if ep != rp {
        return None;
      }
    }
    assert requestSegments[..|requestSegments|] == requestSegments;
    assert endpointSegments[..|endpointSegments|] == endpointSegments;
    params := Some(found);
  }

  /** The second loop: overwrites the parameters of the backend pattern one after the other. */
  method FillIn(pattern: seq<string>, params: map<string, string>) returns (segments: seq<string>)
    ensures segments == Fill(pattern, params)
  {
    segments := pattern;
    for i := 0 to |pattern|
      invariant |segments| == |pattern|
      invariant forall j :: 0 <= j < |pattern| ==> segments[j] == if j < i then FillOne(pattern[j], params) else pattern[j]
    {
      var segment := segments[i];
      if IsParam(segment) && Name(segment) in params {
        segments := segments[i := params[Name(segment)]];
      }
    }
  }

  // ---------- Rewriting back ----------

  /** No parameter name occurs twice. */
  predicate EachOnce(pattern: seq<string>) {
    forall i, j :: 0 <= i < j < |pattern| && IsParam(pattern[i]) && IsParam(pattern[j]) ==>
      Name(pattern[i]) != Name(pattern[j])
  }

  function Names(pattern: seq<string>): set<string> {
    set segment | segment in pattern && IsParam(segment) :: Name(segment)
  }

  lemma {:induction false} BindingsAreValues(segments: seq<string>, pattern: seq<string>)
    requires |segments| == |pattern| && EachOnce(pattern)
    ensures Bindings(segments, pattern).Keys == Names(pattern)
    ensures forall i :: 0 <= i < |pattern| && IsParam(pattern[i]) ==>
                          Name(pattern[i]) in Bindings(segments, pattern)
                          && Bindings(segments, pattern)[Name(pattern[i])] == segments[i]
    decreases |pattern|
  {
    if pattern != [] {
      var last := |pattern| - 1;
      BindingsAreValues(segments[..last], pattern[..last]);
      assert pattern == pattern[..last] + [pattern[last]];
    }
  }

  /** A path that matches a pattern is the pattern filled with what it bound. */
  lemma FillUndoesBindings(segments: seq<string>, pattern: seq<string>)
    requires Matches(segments, pattern) && EachOnce(pattern)
    ensures Fill(pattern, Bindings(segments, pattern)) == segments
  {
    BindingsAreValues(segments, pattern);
  }

  /** Filling a pattern with values for exactly its parameters matches it and binds these values. */
  lemma BindingsUndoFill(pattern: seq<string>, params: map<string, string>)
    requires EachOnce(pattern) && params.Keys == Names(pattern)
    ensures Matches(Fill(pattern, params), pattern)
    ensures Bindings(Fill(pattern, params), pattern) == params
  {
    var filled := Fill(pattern, params);
    BindingsAreValues(filled, pattern);
    forall name | name in params ensures Bindings(filled, pattern)[name] == params[name] {
      var segment :| segment in pattern && IsParam(segment) && Name(segment) == name;
      var i :| 0 <= i < |pattern| && pattern[i] == segment;
      assert filled[i] == params[name];
    }
  }

  /** A path written out with one slash before each segment, none of them empty. */
  ghost predicate Proper(path: string) {
    path == Canonical(Split(path)) && "" !in Split(path)
  }

  lemma FilledSegments(pattern: seq<string>, params: map<string, string>)
    requires Segments(pattern)
    requires forall name | name in params :: params[name] != "" && SLASH !in params[name]
    ensures Segments(Fill(pattern, params))
  {
    forall p | p in Fill(pattern, params) ensures SLASH !in p {
      var i :| 0 <= i < |pattern| && p == FillOne(pattern[i], params);
      assert pattern[i] in pattern;
    }
  }

  lemma BoundValues(segments: seq<string>, pattern: seq<string>)
    requires |segments| == |pattern|
    ensures forall name | name in Bindings(segments, pattern) :: Bindings(segments, pattern)[name] in segments
    decreases |pattern|
  {
    if pattern != [] {
      var last := |pattern| - 1;
      BoundValues(segments[..last], pattern[..last]);
    }
  }

  /** The rewritten path matches the other pattern with the same values, and rewriting back restores the path. */
  lemma RewriteInverts(path: string, endpoint: string, backend: string)
    requires endpoint != "" && backend != ""
    requires EachOnce(Split(endpoint)) && EachOnce(Split(backend))
    requires Names(Split(endpoint)) == Names(Split(backend))
    requires Proper(path) && Matches(Split(path), Split(endpoint))
    ensures var there := Rewrite(path, endpoint, backend);
      && Matches(Split(there), Split(backend))
      && Bindings(Split(there), Split(backend)) == Bindings(Split(path), Split(endpoint))
      && Rewrite(there, backend, endpoint) == path
  {
    if backend != endpoint {
      var from, to := Split(endpoint), Split(backend);
      var params := Bindings(Split(path), from);
      JoinOfSplit(path);
      JoinOfSplit(backend);
      BindingsAreValues(Split(path), from);
      BoundValues(Split(path), from);
      FilledSegments(to, params);
      SplitOfJoin(Fill(to, params));
      BindingsUndoFill(to, params);
      FillUndoesBindings(Split(path), from);
    }
  }

  // ---------- What a rewritten path consists of ----------

  /** `{name}`, also with an empty name. */
  predicate InBraces(segment: string) {
    |segment| >= 2 && segment[0] == '{' && segment[|segment| - 1] == '}'
  }

  predicate LastAt(pattern: seq<string>, segment: string, i: int) {
    0 <= i < |pattern| && pattern[i] == segment && forall k :: i < k < |pattern| ==> pattern[k] != segment
  }

  lemma SameNameSameSegment(a: string, b: string)
    requires IsParam(a) && IsParam(b) && Name(a) == Name(b)
    ensures a == b
  {
    assert a == [a[0]] + Name(a) + [a[|a| - 1]] && b == [b[0]] + Name(b) + [b[|b| - 1]];
  }

  lemma {:induction false} BoundIffPresent(segments: seq<string>, pattern: seq<string>, segment: string)
    requires |segments| == |pattern| && IsParam(segment)
    ensures Name(segment) in Bindings(segments, pattern) <==> segment in pattern
    ensures forall i :: LastAt(pattern, segment, i) ==>
                          Name(segment) in Bindings(segments, pattern)
                          && Bindings(segments, pattern)[Name(segment)] == segments[i]
    decreases |pattern|
  {
    if pattern != [] {
      var last := |pattern| - 1;
      BoundIffPresent(segments[..last], pattern[..last], segment);
      assert pattern == pattern[..last] + [pattern[last]];
      if IsParam(pattern[last]) && Name(pattern[last]) == Name(segment) {
        SameNameSameSegment(pattern[last], segment);
      }
      forall i | LastAt(pattern, segment, i)
        ensures Name(segment) in Bindings(segments, pattern) && Bindings(segments, pattern)[Name(segment)] == segments[i]
      {
        if i < last {
          assert LastAt(pattern[..last], segment, i);
        }
      }
    }
  }

  /** Without a backend pattern, or with that of the endpoint, the path stays. Otherwise
      a path that does not fit the pattern of the endpoint becomes the bare backend pattern. One that fits becomes the
      segments of the backend pattern: a parameter of the endpoint is replaced by what stands in its last place in the
      path, and every other segment, also an unknown parameter, stays literally. */
  lemma RewriteMeaning(path: string, endpoint: string, backend: string) returns (segments: seq<string>)
    ensures var from, to, given := Split(endpoint), Split(backend), Split(path);
      if backend == "" || backend == endpoint then Rewrite(path, endpoint, backend) == path
      else if |given| != |from| || (exists i :: 0 <= i < |from| && !InBraces(from[i]) && given[i] != from[i])
      then Rewrite(path, endpoint, backend) == backend
      else
        && Rewrite(path, endpoint, backend) == "/" + Join(segments, '/') && |segments| == |to|
        && (forall j, i :: 0 <= j < |to| && InBraces(to[j]) && LastAt(from, to[j], i) ==> segments[j] == given[i])
        && (forall j :: 0 <= j < |to| && (!InBraces(to[j]) || to[j] !in from) ==> segments[j] == to[j])
  {
    var from, to, given := Split(endpoint), Split(backend), Split(path);
    segments := [];
    if Matches(given, from) {
      segments := Fill(to, Bindings(given, from));
      forall j | 0 <= j < |to| && InBraces(to[j])
        ensures to[j] !in from ==> segments[j] == to[j]
        ensures forall i :: LastAt(from, to[j], i) ==> segments[j] == given[i]
      {
        BoundIffPresent(given, from, to[j]);
      }
    }
  }
}
