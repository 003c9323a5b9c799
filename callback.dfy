/**
 * The token extraction of src/Callback.jsx: drop the leading `#` of the
 * URL fragment, split it on `&`, take the first piece that starts with
 * `access_token`, split that on `=` and keep the field after the first `=`.
 * A missing or empty value means no token.
 */
module Callback {
  import opened Wrappers

  /** `s.split(sep)`: the pieces between separators; the empty string gives one empty piece. */
  function Split(s: string, sep: char): (r: seq<string>)
    ensures |r| >= 1
    ensures forall k :: 0 <= k < |r| ==> sep !in r[k]
    decreases |s|
  {
    if s == [] then [[]]
    else
      var rest := Split(s[1..], sep);
      if s[0] == sep then [[]] + rest else [[s[0]] + rest[0]] + rest[1..]
  }

  /** `parts.join(sep)`. */
  function Join(parts: seq<string>, sep: char): string
    decreases |parts|
  {
    if parts == [] then []
    else if |parts| == 1 then parts[0]
    else parts[0] + [sep] + Join(parts[1..], sep)
  }

  /** Joining the pieces again gives back the split string. */
  lemma {:induction false} SplitThenJoin(s: string, sep: char)
    ensures Join(Split(s, sep), sep) == s
    decreases |s|
  {
    if s != [] {
      SplitThenJoin(s[1..], sep);
      var rest := Split(s[1..], sep);
      if s[0] == sep {
        assert ([[]] + rest)[1..] == rest;
        assert s == [sep] + s[1..];
      } else if |rest| == 1 {
        assert s == [s[0]] + s[1..];
      } else {
        var r := [[s[0]] + rest[0]] + rest[1..];
        assert r[1..] == rest[1..];
        assert s == [s[0]] + s[1..];
      }
    }
  }

  lemma {:induction false} SplitWithoutSep(p: string, sep: char)
    requires sep !in p
    ensures Split(p, sep) == [p]
    decreases |p|
  {
    if p != [] {
      SplitWithoutSep(p[1..], sep);
      assert [p[0]] + p[1..] == p;
    }
  }

  lemma {:induction false} SplitAtSep(p: string, sep: char, t: string)
    requires sep !in p
    ensures Split(p + [sep] + t, sep) == [p] + Split(t, sep)
    decreases |p|
  {
    var s := p + [sep] + t;
    if p == [] {
      assert s[1..] == t;
    } else {
      assert s[1..] == p[1..] + [sep] + t;
      SplitAtSep(p[1..], sep, t);
      assert [p[0]] + p[1..] == p;
    }
  }

  /** Splitting a join of separator-free pieces gives back the pieces. */
  lemma {:induction false} JoinThenSplit(parts: seq<string>, sep: char)
    requires |parts| >= 1
    requires forall k :: 0 <= k < |parts| ==> sep !in parts[k]
    ensures Split(Join(parts, sep), sep) == parts
    decreases |parts|
  {
    if |parts| == 1 {
      SplitWithoutSep(parts[0], sep);
    } else {
      JoinThenSplit(parts[1..], sep);
      SplitAtSep(parts[0], sep, Join(parts[1..], sep));
    }
  }

  predicate StartsWith(s: string, prefix: string) {
    |prefix| <= |s| && s[..|prefix|] == prefix
  }

  /** `find` with `startsWith`: the position of the first piece that starts with `prefix`. */
  function FindFirst(pieces: seq<string>, prefix: string): (r: Option<nat>)
    ensures r.Some? ==> && r.value < |pieces| && StartsWith(pieces[r.value], prefix)
                        && forall j :: 0 <= j < r.value ==> !StartsWith(pieces[j], prefix)
    ensures r.None? ==> forall j :: 0 <= j < |pieces| ==> !StartsWith(pieces[j], prefix)
    decreases |pieces|
  {
    if pieces == [] then None
    else if StartsWith(pieces[0], prefix) then Some(0)
    else
      match FindFirst(pieces[1..], prefix)
      case None => None
      case Some(i) => Some(i + 1)
  }

  const TokenKey := "access_token"

  /** `segment.split('=')[1]`, where `undefined` and the empty string are no token. */
  function TokenValue(segment: string): (r: Option<string>)
    ensures r.Some? ==> r.value != [] && '=' !in r.value
  {
    var fields := Split(segment, '=');
    if |fields| < 2 || fields[1] == [] then None else Some(fields[1])
  }

  /** The token the callback stores, if any, read from `window.location.hash`. */
  function ExtractToken(hash: string): (r: Option<string>)
    ensures hash == [] ==> r == None
    ensures r.Some? ==> r.value != [] && '=' !in r.value
  {
    if hash == [] then None
    else
      var segments := Split(hash[1..], '&');
      match FindFirst(segments, TokenKey)
      case None => None
      case Some(i) => TokenValue(segments[i])
  }

  /** A piece without `=` has no field after it, so it yields no token. */
  lemma NoEqualsNoToken(segment: string)
    requires '=' !in segment
    ensures TokenValue(segment) == None
  {
    SplitWithoutSep(segment, '=');
  }

  /**
   * The token is the text between the first and the second `=` of the
   * piece (or its end), when that text is not empty.
   */
  lemma TokenBetweenEquals(key: string, value: string, rest: string)
    requires '=' !in key && '=' !in value
    ensures TokenValue(key + "=" + value) == if value == [] then None else Some(value)
    ensures TokenValue(key + "=" + value + "=" + rest) == if value == [] then None else Some(value)
  {
    JoinThenSplit([key, value], '=');
    assert Join([key, value], '=') == key + "=" + value by {
      assert [key, value][1..] == [value];
    }
    SplitAtSep(key, '=', value + "=" + rest);
    SplitAtSep(value, '=', rest);
    assert key + "=" + value + "=" + rest == key + ['='] + (value + ['='] + rest);
  }

  /** The pieces `key=value` of a list of parameters. */
  function Pairs(params: seq<(string, string)>): seq<string> {
    seq(|params|, i requires 0 <= i < |params| => params[i].0 + "=" + params[i].1)
  }

  function Keys(params: seq<(string, string)>): seq<string> {
    seq(|params|, i requires 0 <= i < |params| => params[i].0)
  }

  /** A parameter list whose keys and values hold neither `&` nor `=`. */
  ghost predicate WellFormed(params: seq<(string, string)>) {
    forall i :: 0 <= i < |params| ==>
      '&' !in params[i].0 && '=' !in params[i].0 && '&' !in params[i].1 && '=' !in params[i].1
  }

  /** The fragment `#k1=v1&k2=v2&...` the authorization service redirects with. */
  function Fragment(params: seq<(string, string)>): string {
    "#" + Join(Pairs(params), '&')
  }

  lemma PairStartsWith(key: string, value: string)
    requires '=' !in key
    ensures StartsWith(key + "=" + value, TokenKey) <==> StartsWith(key, TokenKey)
  {
    var s := key + "=" + value;
    assert '=' !in TokenKey;
    if |key| < |TokenKey| <= |s| {
      assert s[..|TokenKey|][|key|] == '=';
    }
    if |TokenKey| <= |key| {
      assert s[..|TokenKey|] == key[..|TokenKey|];
    }
  }

  lemma FindFirstAgree(a: seq<string>, b: seq<string>, prefix: string)
    requires |a| == |b|
    requires forall i :: 0 <= i < |a| ==> (StartsWith(a[i], prefix) <==> StartsWith(b[i], prefix))
    ensures FindFirst(a, prefix) == FindFirst(b, prefix)
  {
    var fa, fb := FindFirst(a, prefix), FindFirst(b, prefix);
    if fa.Some? {
      assert StartsWith(b[fa.value], prefix);
      assert StartsWith(a[fb.value], prefix);
    } else {
      forall j | 0 <= j < |b| ensures !StartsWith(b[j], prefix) {
        assert !StartsWith(a[j], prefix);
      }
    }
  }

  /**
   * On a well-formed fragment the token is the value of the first
   * parameter whose key starts with `access_token` (so `access_token_x`
   * matches too), provided that value is not empty; every other parameter
   * is ignored wherever it appears.
   */
  lemma ExtractFromParameters(params: seq<(string, string)>)
    requires WellFormed(params)
    ensures ExtractToken(Fragment(params)) ==
      match FindFirst(Keys(params), TokenKey)
      case None => None
      case Some(i) => if params[i].1 == [] then None else Some(params[i].1)
  {
    var pairs := Pairs(params);
    var hash := Fragment(params);
    assert hash[1..] == Join(pairs, '&');
    if params == [] {
      assert Split([], '&') == [[]];
    } else {
      forall k | 0 <= k < |pairs| ensures '&' !in pairs[k] {
        assert pairs[k] == params[k].0 + "=" + params[k].1;
      }
      JoinThenSplit(pairs, '&');
      forall i | 0 <= i < |pairs| ensures StartsWith(pairs[i], TokenKey) <==> StartsWith(Keys(params)[i], TokenKey) {
        PairStartsWith(params[i].0, params[i].1);
      }
      FindFirstAgree(pairs, Keys(params), TokenKey);
      match FindFirst(Keys(params), TokenKey)
      case None =>
      case Some(i) =>
        TokenBetweenEquals(params[i].0, params[i].1, "");
    }
  }
}
