/** The part of the browser's URL handling the results page relies on: `location.search`
    and `URLSearchParams` parsing and lookup (WHATWG URL Standard,
    application/x-www-form-urlencoded parsing). */
module SearchParams {
  import opened Wrappers
  import UriComponent

  /** The index of the first `c` in `s`, or `|s|` when `s` has none. */
  function IndexOf(s: string, c: char): (i: nat)
    ensures i <= |s|
    ensures c !in s[..i]
    ensures i < |s| ==> s[i] == c
  {
    if s == [] then 0
    else if s[0] == c then 0
    else
      var i := 1 + IndexOf(s[1..], c);
      assert s[..i] == [s[0]] + s[1..][..i - 1];
      i
  }

  /** `s` cut at every `sep`; the pieces hold no `sep` and there is always at least one. */
  function Split(s: string, sep: char): (pieces: seq<string>)
    ensures |pieces| >= 1
    ensures forall k :: 0 <= k < |pieces| ==> sep !in pieces[k]
    decreases |s|
  {
    var i := IndexOf(s, sep);
    if i == |s| then [s] else [s[..i]] + Split(s[i + 1..], sep)
  }

  /** The pieces put back together with `sep` between each two. */
  function Join(pieces: seq<string>, sep: char): string {
    if pieces == [] then ""
    else if |pieces| == 1 then pieces[0]
    else pieces[0] + [sep] + Join(pieces[1..], sep)
  }

  /** Splitting loses nothing: joining the pieces gives back the string. */
  lemma {:induction false} JoinSplit(s: string, sep: char)
    ensures Join(Split(s, sep), sep) == s
    decreases |s|
  {
    var i := IndexOf(s, sep);
    if i < |s| {
      var rest := Split(s[i + 1..], sep);
      var pieces := [s[..i]] + rest;
      assert Split(s, sep) == pieces;
      assert pieces[1..] == rest;
      assert Join(pieces, sep) == s[..i] + [sep] + Join(rest, sep);
      JoinSplit(s[i + 1..], sep);
      assert s == s[..i] + [sep] + s[i + 1..];
    } else {
      assert Split(s, sep) == [s];
    }
  }

  /** A string without `sep` is one piece. */
  lemma SplitWithoutSeparator(s: string, sep: char)
    requires sep !in s
    ensures Split(s, sep) == [s]
  {
    assert forall k :: 0 <= k < |s| ==> s[k] != sep;
  }

  datatype Param = Param(name: string, value: string)

  /** One `name=value` piece, cut at its first `=` with both sides decoded; a piece without
      `=` is a name with the empty value. */
  function ParsePair(piece: string): (param: Param)
    ensures '=' !in piece ==> param.value == ""
    ensures '=' in piece ==> param.value == UriComponent.Decode(piece[IndexOf(piece, '=') + 1..])
  {
    var i := IndexOf(piece, '=');
    if i == |piece| then Param(UriComponent.Decode(piece), "")
    else Param(UriComponent.Decode(piece[..i]), UriComponent.Decode(piece[i + 1..]))
  }

  /** The parameters of the pieces in order, empty pieces skipped: pieces that are all
      non-empty give one parameter each, pieces that are all empty give none. */
  function ParsePieces(pieces: seq<string>): (params: seq<Param>)
    ensures |params| <= |pieces|
    ensures (forall k :: 0 <= k < |pieces| ==> pieces[k] != "") ==>
      |params| == |pieces| && forall k :: 0 <= k < |pieces| ==> params[k] == ParsePair(pieces[k])
    ensures (forall k :: 0 <= k < |pieces| ==> pieces[k] == "") ==> params == []
  {
    if pieces == [] then []
    else (if pieces[0] == "" then [] else [ParsePair(pieces[0])]) + ParsePieces(pieces[1..])
  }

  /** Parsing distributes over concatenation, so each piece is read on its own, whatever
      its neighbours are. */
  lemma {:induction false} ParsePiecesConcat(a: seq<string>, b: seq<string>)
    ensures ParsePieces(a + b) == ParsePieces(a) + ParsePieces(b)
  {
    if a == [] {
      assert a + b == b;
    } else {
      assert (a + b)[0] == a[0];
      assert (a + b)[1..] == a[1..] + b;
      ParsePiecesConcat(a[1..], b);
    }
  }

  /** An empty piece, such as the one a trailing or doubled `&` leaves, adds no parameter
      and removes none of its neighbours'. */
  lemma ParsePiecesSkipsEmpty(a: seq<string>, b: seq<string>)
    ensures ParsePieces(a + [""] + b) == ParsePieces(a + b)
  {
    ParsePiecesConcat(a + [""], b);
    ParsePiecesConcat(a, [""]);
    ParsePiecesConcat(a, b);
  }

  /** `new URLSearchParams(search)`: a leading `?` is dropped and the rest cut at `&`. An
      empty search string, or `?` alone, has no parameters. */
  function Parse(search: string): (params: seq<Param>)
    ensures search == "" || search == "?" ==> params == []
  {
    var body := if |search| > 0 && search[0] == '?' then search[1..] else search;
    ParsePieces(Split(body, '&'))
  }

  /** `params.get(name)`: the value of the first parameter called `name`, if there is one. */
  function Get(params: seq<Param>, name: string): (r: Option<string>)
    ensures r.None? <==> forall k :: 0 <= k < |params| ==> params[k].name != name
    ensures r.Some? ==> exists k :: 0 <= k < |params| && params[k] == Param(name, r.value)
                                 && forall j :: 0 <= j < k ==> params[j].name != name
  {
    if params == [] then None
    else if params[0].name == name then Some(params[0].value)
    else
      var r := Get(params[1..], name);
      if r.Some? then
        var k :| 0 <= k < |params[1..]| && params[1..][k] == Param(name, r.value)
                 && forall j :: 0 <= j < k ==> params[1..][j].name != name;
        assert params[k + 1] == Param(name, r.value);
        r
      else
        r
  }

  /** `params[k]` is the first parameter called `name`. */
  predicate IsFirstNamed(params: seq<Param>, name: string, k: int) {
    0 <= k < |params| && params[k].name == name && forall j :: 0 <= j < k ==> params[j].name != name
  }

  /** Looking up a name gives the value of the first parameter with that name. */
  lemma GetFirst(params: seq<Param>, name: string, k: nat)
    requires IsFirstNamed(params, name, k)
    ensures Get(params, name) == Some(params[k].value)
  {
    var r := Get(params, name);
    var i :| 0 <= i < |params| && params[i] == Param(name, r.value)
             && forall j :: 0 <= j < i ==> params[j].name != name;
    assert i == k;
  }

  /** Looking up the name of the only parameter gives its value. */
  lemma GetOnly(name: string, value: string)
    ensures Get([Param(name, value)], name) == Some(value)
  {
  }

  /** `location.search` of a path: from its first `?` up to its fragment, or "" when the
      path has no `?` before the fragment. */
  function SearchOf(path: string): (search: string)
    ensures search == "" || search[0] == '?'
    ensures '#' !in search
  {
    var beforeFragment := path[..IndexOf(path, '#')];
    beforeFragment[IndexOf(beforeFragment, '?')..]
  }

  /** The search string of a path with one `?` and no fragment is everything from the `?`. */
  lemma SearchOfQueryPath(path: string, query: string)
    requires '?' !in path && '#' !in path && '#' !in query
    ensures SearchOf(path + "?" + query) == "?" + query
  {
    var full := path + "?" + query;
    assert forall k :: 0 <= k < |full| ==> full[k] != '#' by {
      forall k | 0 <= k < |full| ensures full[k] != '#' {
        if k < |path| {
          assert full[k] == path[k];
        } else if k > |path| {
          assert full[k] == query[k - |path| - 1];
        }
      }
    }
    assert full[..IndexOf(full, '#')] == full;
    assert forall k :: 0 <= k < |path| ==> full[k] == path[k];
    assert full[|path|] == '?';
    assert IndexOf(full, '?') == |path|;
    assert full == path + ("?" + query);
    assert full[|path|..] == "?" + query;
  }

  /** A parameter name that reads back as itself: nothing in it is escaped or delimits. */
  predicate IsPlainName(name: string) {
    forall i :: 0 <= i < |name| ==> !UriComponent.IsQueryDelimiter(name[i]) && name[i] != '%'
  }

  /** A query string without `&` is one piece, and so at most one parameter. */
  lemma ParseSinglePiece(body: string)
    requires body != "" && '&' !in body
    ensures Parse("?" + body) == [ParsePair(body)]
  {
    assert ("?" + body)[1..] == body;
    SplitWithoutSeparator(body, '&');
  }

  /** `name=` followed by an encoded value is that name with that value. */
  lemma ParseEncodedPair(name: string, value: string)
    requires IsPlainName(name)
    ensures ParsePair(name + "=" + UriComponent.Encode(value)) == Param(name, value)
  {
    var encoded := UriComponent.Encode(value);
    var body := name + "=" + encoded;
    var i := IndexOf(body, '=');
    assert body[|name|] == '=';
    assert forall k :: 0 <= k < |name| ==> body[k] == name[k];
    assert i == |name|;
    assert body[..i] == name;
    assert body[i + 1..] == encoded;
    UriComponent.DecodePlain(name);
    UriComponent.DecodeEncode(value);
  }

  /** A query string holding one parameter whose value was written with
      `encodeURIComponent` parses back to that one parameter and its value. */
  lemma ParseEncodedParam(name: string, value: string)
    requires name != "" && IsPlainName(name)
    ensures Parse("?" + (name + "=" + UriComponent.Encode(value))) == [Param(name, value)]
  {
    var encoded := UriComponent.Encode(value);
    var body := name + "=" + encoded;
    forall i | 0 <= i < |body| ensures body[i] != '&' {
      if i > |name| {
        assert body[i] == encoded[i - |name| - 1];
      }
    }
    ParseSinglePiece(body);
    ParseEncodedPair(name, value);
  }
}
