/** The JavaScript string built-ins the service and the app rely on, over
    `string` = `seq<char>`: `startsWith`, `endsWith`, `trim`, `indexOf`,
    `split` and `join` with a one-character separator. */
module JsString {
  import opened Types

  /** `s.startsWith(p)` */
  predicate StartsWith(s: string, p: string) {
    |p| <= |s| && s[..|p|] == p
  }

  /** `s.endsWith(p)` */
  predicate EndsWith(s: string, p: string) {
    |p| <= |s| && s[|s| - |p|..] == p
  }

  /** `s[at..]` begins with `part`. */
  predicate EmbedsAt(s: string, part: string, at: nat) {
    at + |part| <= |s| && s[at..at + |part|] == part
  }

  /** A text assembled as `head + part + tail` holds `part` right after `head`. */
  lemma EmbedsBetween(head: string, part: string, tail: string)
    ensures EmbedsAt(head + part + tail, part, |head|)
  {
    var s := head + part + tail;
    assert s[|head|..|head| + |part|] == part;
  }

  /** The characters `String.prototype.trim` removes: the WhiteSpace and
      LineTerminator code points of ECMA-262 (tab, vertical tab, form feed,
      space, no-break space, byte order mark, the Unicode Zs space separators,
      line feed, carriage return, line and paragraph separator). */
  predicate IsWhitespace(c: char) {
    || c == '\t' || c == '\n' || c == '\U{000B}' || c == '\U{000C}' || c == '\r'
    || c == ' ' || c == '\U{00A0}' || c == '\U{1680}' || ('\U{2000}' <= c <= '\U{200A}')
    || c == '\U{2028}' || c == '\U{2029}' || c == '\U{202F}' || c == '\U{205F}'
    || c == '\U{3000}' || c == '\U{FEFF}'
  }

  predicate AllWhitespace(s: string) {
    forall k :: 0 <= k < |s| ==> IsWhitespace(s[k])
  }

  /** A string `trim` leaves as it is: empty, or no whitespace at either end. */
  predicate Trimmed(s: string) {
    s == [] || (!IsWhitespace(s[0]) && !IsWhitespace(s[|s| - 1]))
  }

  /** `s.trimStart()`: the suffix of `s` after its leading whitespace. */
  function TrimStart(s: string): (r: string)
    ensures |r| <= |s| && r == s[|s| - |r|..]
    ensures AllWhitespace(s[..|s| - |r|])
    ensures r == [] || !IsWhitespace(r[0])
  {
    if s == [] || !IsWhitespace(s[0]) then s else TrimStart(s[1..])
  }

  /** `s.trimEnd()`: the prefix of `s` before its trailing whitespace. */
  function TrimEnd(s: string): (r: string)
    ensures |r| <= |s| && r == s[..|r|]
    ensures AllWhitespace(s[|r|..])
    ensures r == [] || !IsWhitespace(r[|r| - 1])
  {
    if s == [] || !IsWhitespace(s[|s| - 1]) then s else TrimEnd(s[..|s| - 1])
  }

  /** `s.trim()`. */
  function Trim(s: string): string {
    TrimStart(TrimEnd(s))
  }

  /** `s` is `mid` with the whitespace runs `pre` and `post` around it. */
  predicate PaddedWith(s: string, pre: string, mid: string, post: string) {
    s == pre + mid + post && AllWhitespace(pre) && AllWhitespace(post)
  }

  /** `trim` removes whitespace, one run at each end, and nothing else, and
      what it leaves has no whitespace at either end (the two together
      determine the result). */
  lemma TrimRemovesExactlyEdgeWhitespace(s: string)
    ensures Trimmed(Trim(s))
    ensures exists pre, post :: PaddedWith(s, pre, Trim(s), post)
  {
    var e := TrimEnd(s);
    TrimmedPieces(e, TrimStart(e));
    PaddedPieces(s, e, TrimStart(e));
  }

  /** A suffix `r` of `e`, with no whitespace at its start, of a string `e`
      with none at its end, has none at either end. */
  lemma TrimmedPieces(e: string, r: string)
    requires e == [] || !IsWhitespace(e[|e| - 1])
    requires |r| <= |e| && r == e[|e| - |r|..]
    requires r == [] || !IsWhitespace(r[0])
    ensures Trimmed(r)
  {
    assert r == [] || r[|r| - 1] == e[|e| - 1];
  }

  /** A prefix `e` of `s` followed by whitespace, and a suffix `r` of `e`
      preceded by whitespace: `s` is `r` padded on both sides. */
  lemma PaddedPieces(s: string, e: string, r: string)
    requires |e| <= |s| && e == s[..|e|] && AllWhitespace(s[|e|..])
    requires |r| <= |e| && r == e[|e| - |r|..] && AllWhitespace(e[..|e| - |r|])
    ensures exists pre, post :: PaddedWith(s, pre, r, post)
  {
    var pre, post := e[..|e| - |r|], s[|e|..];
    PieceTogether(s, e, pre, r, post);
    assert PaddedWith(s, pre, r, post);
  }

  lemma PieceTogether(s: string, e: string, pre: string, r: string, post: string)
    requires |e| <= |s| && e == s[..|e|] && post == s[|e|..]
    requires |r| <= |e| && r == e[|e| - |r|..] && pre == e[..|e| - |r|]
    ensures s == pre + r + post
  {
    assert e == pre + r;
  }

  lemma {:induction false} TrimEndPadded(s: string, post: string)
    requires AllWhitespace(post)
    requires s == [] || !IsWhitespace(s[|s| - 1])
    ensures TrimEnd(s + post) == s
    decreases |post|
  {
    if post == [] {
      assert s + post == s;
    } else {
      var t := s + post;
      assert t[..|t| - 1] == s + post[..|post| - 1];
      assert IsWhitespace(t[|t| - 1]);
      TrimEndPadded(s, post[..|post| - 1]);
    }
  }

  lemma {:induction false} TrimStartPadded(pre: string, s: string)
    requires AllWhitespace(pre)
    requires s == [] || !IsWhitespace(s[0])
    ensures TrimStart(pre + s) == s
    decreases |pre|
  {
    if pre == [] {
      assert pre + s == s;
    } else {
      var t := pre + s;
      assert t[1..] == pre[1..] + s;
      assert IsWhitespace(t[0]);
      TrimStartPadded(pre[1..], s);
    }
  }

  /** `trim` takes back exactly the whitespace put around a trimmed string. */
  lemma TrimOfPadded(pre: string, mid: string, post: string)
    requires AllWhitespace(pre) && AllWhitespace(post) && Trimmed(mid)
    ensures Trim(pre + mid + post) == mid
  {
    if mid == [] {
      assert pre + mid + post == [] + (pre + post);
      TrimEndPadded([], pre + post);
    } else {
      TrimEndPadded(pre + mid, post);
      TrimStartPadded(pre, mid);
    }
  }

  /** `trim` leaves an already trimmed string as it is. */
  lemma TrimOfTrimmed(s: string)
    requires Trimmed(s)
    ensures Trim(s) == s
  {
    assert TrimEnd(s) == s;
  }

  /** `trim` keeps a first character that is not whitespace, in front. */
  lemma TrimKeepsLeadingChar(s: string)
    requires s != [] && !IsWhitespace(s[0])
    ensures Trim(s) != [] && Trim(s)[0] == s[0]
  {
    TrimRemovesExactlyEdgeWhitespace(s);
  }

  /** `s.indexOf(c)`, with `None` for -1. */
  function IndexOf(s: string, c: char): (r: Option<nat>)
    ensures r.None? <==> c !in s
    ensures r.Some? ==> r.value < |s| && s[r.value] == c && c !in s[..r.value]
  {
    if s == [] then None
    else if s[0] == c then Some(0)
    else match IndexOf(s[1..], c)
      case None => None
      case Some(i) =>
        assert s[..i + 1] == [s[0]] + s[1..][..i];
        Some(i + 1)
  }

  /** `s.split(sep)` for a one-character separator: the pieces between the separators. */
  function Split(s: string, sep: char): (fields: seq<string>)
    ensures |fields| >= 1
    ensures forall k :: 0 <= k < |fields| ==> sep !in fields[k]
    ensures (|fields| == 1) <==> sep !in s
    decreases |s|
  {
    match IndexOf(s, sep)
    case None => [s]
    case Some(i) => [s[..i]] + Split(s[i + 1..], sep)
  }

  /** `fields.join(sep)` for a one-character separator. */
  function Join(fields: seq<string>, sep: char): string {
    if fields == [] then ""
    else if |fields| == 1 then fields[0]
    else fields[0] + [sep] + Join(fields[1..], sep)
  }

  /** Joining the pieces of a split gives back the string. */
  lemma {:induction false} JoinSplit(s: string, sep: char)
    ensures Join(Split(s, sep), sep) == s
    decreases |s|
  {
    var idx := IndexOf(s, sep);
    if idx.Some? {
      var i := idx.value;
      var rest := s[i + 1..];
      assert s == s[..i] + [sep] + rest;
      var fs := Split(rest, sep);
      JoinSplit(rest, sep);
      var all := [s[..i]] + fs;
      assert Split(s, sep) == all;
      assert all[1..] == fs;
      assert Join(all, sep) == s[..i] + [sep] + Join(fs, sep);
    } else {
      assert Split(s, sep) == [s];
    }
  }

  /** Splitting a join of separator-free pieces gives back the pieces. */
  lemma {:induction false} SplitJoin(fields: seq<string>, sep: char)
    requires |fields| >= 1
    requires forall k :: 0 <= k < |fields| ==> sep !in fields[k]
    ensures Split(Join(fields, sep), sep) == fields
  {
    var f := fields[0];
    if |fields| == 1 {
      assert Join(fields, sep) == f;
    } else {
      var rest := Join(fields[1..], sep);
      var s := f + [sep] + rest;
      assert Join(fields, sep) == s;
      assert s[|f|] == sep;
      assert s[..|f|] == f;
      var i := IndexOf(s, sep).value;
      assert i == |f|;
      assert s[i + 1..] == rest;
      SplitJoin(fields[1..], sep);
      assert fields == [f] + fields[1..];
    }
  }

  /** `s.slice(start, end)` for non-negative bounds: both are clamped to the
      length, and an end before the start gives the empty slice. */
  function Slice<T>(s: seq<T>, start: nat, end: nat): (r: seq<T>)
    ensures start <= end <= |s| ==> r == s[start..end]
    ensures start <= |s| <= end ==> r == s[start..]
    ensures end <= start ==> r == []
    ensures |s| <= start ==> r == []
    ensures |r| <= |s|
  {
    var from := if start < |s| then start else |s|;
    var to := if end < |s| then end else |s|;
    if to < from then [] else s[from..to]
  }
}
