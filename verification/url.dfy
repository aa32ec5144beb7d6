/** Just enough of the URL class for the redirect responders: a URL is a
    base (everything before the first '?') plus an ordered list of query
    pairs; `searchParams.set` replaces the first pair with the key, drops
    the later ones, or appends when the key is new; `toString` joins the
    pairs back with '&' and '='. Percent-encoding and fragments are not
    modelled. */
module QueryUrl {
  import opened Types

  type Query = seq<(string, string)>

  datatype Url = Url(base: string, query: Query)

  /** `q[i]` is the first pair under `k`. */
  predicate FirstPairAt(q: Query, k: string, i: nat) {
    i < |q| && q[i].0 == k && forall j :: 0 <= j < i ==> q[j].0 != k
  }

  /** Every value stored under key `k`, in query order. */
  function ValuesOf(q: Query, k: string): (r: seq<string>)
    ensures |r| <= |q|
    decreases |q|
  {
    if |q| == 0 then []
    else if q[0].0 == k then [q[0].1] + ValuesOf(q[1..], k)
    else ValuesOf(q[1..], k)
  }

  /** No value under `k` iff no pair carries `k`; otherwise the first
      value is that of the first pair under `k`. */
  lemma {:induction false} ValuesOfFirst(q: Query, k: string)
    ensures |ValuesOf(q, k)| == 0 <==> forall j :: 0 <= j < |q| ==> q[j].0 != k
    ensures |ValuesOf(q, k)| > 0 ==> exists i: nat :: FirstPairAt(q, k, i) && ValuesOf(q, k)[0] == q[i].1
    decreases |q|
  {
    if |q| > 0 {
      if q[0].0 == k {
        assert FirstPairAt(q, k, 0);
      } else {
        ValuesOfFirst(q[1..], k);
        assert ValuesOf(q, k) == ValuesOf(q[1..], k);
        assert (forall j :: 0 <= j < |q| ==> q[j].0 != k) <==> (forall j :: 0 <= j < |q[1..]| ==> q[1..][j].0 != k) by {
          assert forall j :: 0 <= j < |q[1..]| ==> q[1..][j] == q[j + 1];
        }
        if |ValuesOf(q, k)| > 0 {
          var i: nat :| FirstPairAt(q[1..], k, i) && ValuesOf(q[1..], k)[0] == q[1..][i].1;
          assert q[i + 1] == q[1..][i];
          forall j | 0 <= j < i + 1 ensures q[j].0 != k {
            if j > 0 {
              assert q[j] == q[1..][j - 1];
            }
          }
          assert FirstPairAt(q, k, i + 1);
        }
      }
    }
  }

  /** URLSearchParams.get: the value of the first pair under `k`, and
      `None` when no pair carries `k`. */
  function ParamValue(q: Query, k: string): (r: Option<string>)
    ensures r.None? <==> forall j :: 0 <= j < |q| ==> q[j].0 != k
    ensures r.Some? ==> exists i: nat :: FirstPairAt(q, k, i) && r.value == q[i].1
  {
    ValuesOfFirst(q, k);
    var vs := ValuesOf(q, k);
    if |vs| == 0 then None else Some(vs[0])
  }

  lemma {:induction false} ValuesOfAppend(a: Query, b: Query, k: string)
    ensures ValuesOf(a + b, k) == ValuesOf(a, k) + ValuesOf(b, k)
    decreases |a|
  {
    if |a| > 0 {
      assert (a + b)[1..] == a[1..] + b;
      ValuesOfAppend(a[1..], b, k);
    } else {
      assert a + b == b;
    }
  }

  /** The first pair under `k` decides URLSearchParams.get. */
  lemma FirstPairDecides(q: Query, k: string, i: nat)
    requires i < |q| && q[i].0 == k
    requires forall j :: 0 <= j < i ==> q[j].0 != k
    ensures ParamValue(q, k) == Some(q[i].1)
  {
  }

  /** A key no pair carries has no value. */
  lemma AbsentKey(q: Query, k: string)
    requires forall j :: 0 <= j < |q| ==> q[j].0 != k
    ensures ParamValue(q, k).None?
  {
  }

  /** The query without any pair under `k`; other keys keep their values. */
  function DropKey(q: Query, k: string): (r: Query)
    ensures ValuesOf(r, k) == []
    ensures forall k' :: k' != k ==> ValuesOf(r, k') == ValuesOf(q, k')
    decreases |q|
  {
    if |q| == 0 then []
    else if q[0].0 == k then DropKey(q[1..], k)
    else
      var r := [q[0]] + DropKey(q[1..], k);
      assert r[1..] == DropKey(q[1..], k);
      r
  }

  /** `r` is `q` with its first pair under `k`, at `i`, overwritten in
      place by `(k, v)` and every later pair under `k` dropped. */
  predicate ReplacedAt(q: Query, k: string, v: string, r: Query, i: nat) {
    FirstPairAt(q, k, i) && r == q[..i] + [(k, v)] + DropKey(q[i + 1..], k)
  }

  lemma ReplacedAtStep(q: Query, k: string, v: string, tail: Query, i: nat)
    requires |q| > 0 && q[0].0 != k && ReplacedAt(q[1..], k, v, tail, i)
    ensures ReplacedAt(q, k, v, [q[0]] + tail, i + 1)
  {
    var pre, post := q[1..][..i], DropKey(q[1..][i + 1..], k);
    assert q[1..][i + 1..] == q[i + 2..];
    assert q[..i + 1] == [q[0]] + pre;
    assert [q[0]] + tail == q[..i + 1] + [(k, v)] + post;
    assert q[i + 1] == q[1..][i];
    forall j | 0 <= j < i + 1 ensures q[j].0 != k {
      if j > 0 {
        assert q[j] == q[1..][j - 1];
      }
    }
  }

  /** Writes `v` into the first pair under `k` and drops the later ones. */
  function ReplaceFirst(q: Query, k: string, v: string): (r: Query)
    requires |ValuesOf(q, k)| > 0
    ensures ValuesOf(r, k) == [v]
    ensures forall k' :: k' != k ==> ValuesOf(r, k') == ValuesOf(q, k')
    decreases |q|
  {
    if q[0].0 == k then
      var r := [(k, v)] + DropKey(q[1..], k);
      assert r[1..] == DropKey(q[1..], k);
      r
    else
      var r := [q[0]] + ReplaceFirst(q[1..], k, v);
      assert r[1..] == ReplaceFirst(q[1..], k, v);
      r
  }

  /** The replacement happens in place: the pairs before the first one
      under `k` are kept, that pair is overwritten, and the later pairs
      under `k` are dropped. */
  lemma {:induction false} ReplaceFirstInPlace(q: Query, k: string, v: string)
    requires |ValuesOf(q, k)| > 0
    ensures exists i: nat :: ReplacedAt(q, k, v, ReplaceFirst(q, k, v), i)
    decreases |q|
  {
    var r := ReplaceFirst(q, k, v);
    if q[0].0 == k {
      assert q[..0] == [];
      assert ReplacedAt(q, k, v, r, 0);
    } else {
      var tail := ReplaceFirst(q[1..], k, v);
      assert r == [q[0]] + tail;
      ReplaceFirstInPlace(q[1..], k, v);
      var i: nat :| ReplacedAt(q[1..], k, v, tail, i);
      ReplacedAtStep(q, k, v, tail, i);
      assert ReplacedAt(q, k, v, r, i + 1);
    }
  }

  /** URLSearchParams.set: afterwards `k` holds exactly `v` and every other
      key holds what it held; a present key is overwritten in place at its
      first pair, and a new key goes at the end. */
  function SetParam(q: Query, k: string, v: string): (r: Query)
    ensures ValuesOf(r, k) == [v]
    ensures ParamValue(r, k) == Some(v)
    ensures forall k' :: k' != k ==> ValuesOf(r, k') == ValuesOf(q, k')
    ensures |ValuesOf(q, k)| == 0 ==> r == q + [(k, v)]
    ensures |ValuesOf(q, k)| > 0 ==> exists i: nat :: ReplacedAt(q, k, v, r, i)
  {
    if |ValuesOf(q, k)| == 0 then
      ValuesOfAppend(q, [(k, v)], k);
      assert ValuesOf([(k, v)], k) == [v];
      forall k' | k' != k ensures ValuesOf(q + [(k, v)], k') == ValuesOf(q, k') {
        ValuesOfAppend(q, [(k, v)], k');
        assert ValuesOf([(k, v)], k') == [];
      }
      q + [(k, v)]
    else
      ReplaceFirstInPlace(q, k, v);
      ReplaceFirst(q, k, v)
  }

  /** `url.searchParams.set` on a whole URL: the base is kept and the
      query is updated as `SetParam` does, in place or at the end. */
  function SetUrlParam(u: Url, k: string, v: string): (r: Url)
    ensures r.base == u.base
    ensures r.query == SetParam(u.query, k, v)
    ensures ParamValue(r.query, k) == Some(v) && ValuesOf(r.query, k) == [v]
    ensures forall k' :: k' != k ==> ValuesOf(r.query, k') == ValuesOf(u.query, k')
  {
    Url(u.base, SetParam(u.query, k, v))
  }

  /** Position of the first `c` in `s`. */
  function IndexOf(s: string, c: char): (r: Option<nat>)
    ensures r.None? <==> c !in s
    ensures r.Some? ==> r.value < |s| && s[r.value] == c && c !in s[..r.value]
    decreases |s|
  {
    if |s| == 0 then None
    else if s[0] == c then Some(0)
    else
      match IndexOf(s[1..], c)
      case None => None
      case Some(i) =>
        assert s[..i + 1] == [s[0]] + s[1..][..i];
        Some(i + 1)
  }

  /** Splits on every `c`; there is always at least one piece. */
  function SplitOn(s: string, c: char): (parts: seq<string>)
    ensures |parts| >= 1
    decreases |s|
  {
    match IndexOf(s, c)
    case None => [s]
    case Some(i) => [s[..i]] + SplitOn(s[i + 1..], c)
  }

  /** One `name=value` piece; a piece without '=' has an empty value. */
  function ParsePair(piece: string): (string, string) {
    match IndexOf(piece, '=')
    case None => (piece, "")
    case Some(i) => (piece[..i], piece[i + 1..])
  }

  /** The pairs of the pieces, skipping empty pieces. */
  function ParsePieces(pieces: seq<string>): Query
    decreases |pieces|
  {
    if |pieces| == 0 then []
    else if pieces[0] == "" then ParsePieces(pieces[1..])
    else [ParsePair(pieces[0])] + ParsePieces(pieces[1..])
  }

  function ParseQuery(s: string): Query {
    ParsePieces(SplitOn(s, '&'))
  }

  /** `new URL(s)`: the base up to the first '?', then the query pairs. */
  function Parse(s: string): (u: Url)
    ensures '?' !in s ==> u == Url(s, [])
  {
    match IndexOf(s, '?')
    case None => Url(s, [])
    case Some(i) => Url(s[..i], ParseQuery(s[i + 1..]))
  }

  function RenderPair(p: (string, string)): string {
    p.0 + "=" + p.1
  }

  function JoinQuery(q: Query): string
    requires |q| > 0
    decreases |q|
  {
    if |q| == 1 then RenderPair(q[0]) else RenderPair(q[0]) + "&" + JoinQuery(q[1..])
  }

  /** `url.toString()`: the base, then '?' and the pairs only when there
      are any. */
  function Render(u: Url): (r: string)
    ensures |r| >= |u.base| && r[..|u.base|] == u.base
    ensures |u.query| == 0 <==> r == u.base
    ensures |u.query| > 0 ==> r[|u.base|] == '?'
  {
    if |u.query| == 0 then u.base else u.base + "?" + JoinQuery(u.query)
  }

  /** The text forms for which rendering and parsing are inverse: no '?'
      in the base, no '&' anywhere in the query, no '=' in a name. */
  predicate Plain(u: Url) {
    && '?' !in u.base
    && forall i :: 0 <= i < |u.query| ==> '&' !in u.query[i].0 && '&' !in u.query[i].1 && '=' !in u.query[i].0
  }

  /** The first `c` of `a + [c] + b` is the one after `a` when `a` has none. */
  lemma IndexOfAfterPrefix(a: string, c: char, b: string)
    requires c !in a
    ensures IndexOf(a + [c] + b, c) == Some(|a|)
  {
    var s := a + [c] + b;
    assert s[|a|] == c;
    var r := IndexOf(s, c);
    assert r.Some?;
  }

  lemma ParseRenderedPair(p: (string, string))
    requires '=' !in p.0
    ensures ParsePair(RenderPair(p)) == p
  {
    var s := RenderPair(p);
    assert s == p.0 + ['='] + p.1;
    IndexOfAfterPrefix(p.0, '=', p.1);
    assert s[..|p.0|] == p.0;
    assert s[|p.0| + 1..] == p.1;
  }

  /** Parsing a rendered query gives back its pairs. */
  lemma {:induction false} ParseJoinedQuery(q: Query)
    requires |q| > 0
    requires forall i :: 0 <= i < |q| ==> '&' !in q[i].0 && '&' !in q[i].1 && '=' !in q[i].0
    ensures ParseQuery(JoinQuery(q)) == q
    decreases |q|
  {
    var head := RenderPair(q[0]);
    assert '&' !in head by {
      assert head == q[0].0 + "=" + q[0].1;
    }
    assert head != "" by {
      assert |head| == |q[0].0| + 1 + |q[0].1|;
    }
    ParseRenderedPair(q[0]);
    if |q| == 1 {
      assert SplitOn(head, '&') == [head];
      assert [head][1..] == [];
      assert ParsePieces([head]) == [ParsePair(head)];
    } else {
      var rest := JoinQuery(q[1..]);
      IndexOfAfterPrefix(head, '&', rest);
      var s := head + "&" + rest;
      assert s == head + ['&'] + rest;
      assert s[..|head|] == head;
      assert s[|head| + 1..] == rest;
      assert SplitOn(s, '&') == [head] + SplitOn(rest, '&');
      ParseJoinedQuery(q[1..]);
      assert ([head] + SplitOn(rest, '&'))[1..] == SplitOn(rest, '&');
      assert q == [q[0]] + q[1..];
    }
  }

  /** Round trip: `new URL(u.toString())` is `u` for plain URLs. */
  lemma ParseRender(u: Url)
    requires Plain(u)
    ensures Parse(Render(u)) == u
  {
    if |u.query| > 0 {
      var rest := JoinQuery(u.query);
      var s := u.base + "?" + rest;
      assert s == u.base + ['?'] + rest;
      IndexOfAfterPrefix(u.base, '?', rest);
      assert s[..|u.base|] == u.base;
      assert s[|u.base| + 1..] == rest;
      ParseJoinedQuery(u.query);
    }
  }
}
