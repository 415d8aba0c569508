/**
 * Parsing what the request serialiser prints gives the request back,
 * for every request the parser could itself have produced whose
 * header keys and values carry no whitespace and whose keys carry no
 * colon (the characters the parser deletes or splits at).
 */
module HttpRoundTrip {
  import opened Ascii
  import opened HttpTypes
  import opened Headers
  import opened Strings
  import opened Wrappers
  import opened HttpMessage
  import opened HttpCodec

  /** A field the text format can carry unchanged. */
  predicate FieldOk(f: Field)
  {
    NoSpace(f.key) && ':' !in f.key && NoSpace(f.value)
  }

  predicate FieldsOk(hs: seq<Field>)
  {
    forall i :: 0 <= i < |hs| ==> FieldOk(hs[i])
  }

  /**
   * The requests that survive a round trip: what string_to_request
   * produces (HTTP/1.1, lowercase path, Content-Length in sync with the
   * body), with a non-empty path and fields free of whitespace.
   */
  predicate Renderable(r: Request)
  {
    r.version == HTTP_1_1 && Sorted(r.headers) && FieldsOk(r.headers) &&
    r.uri != [] && NoSpace(r.uri) && Lowercase(r.uri) == r.uri &&
    HeaderValue(r.headers, ContentLengthKey) == NatToString(|r.content|)
  }

  // ---- the start line ----

  lemma {:induction false} TakeWordOf(w: string, x: string)
    requires NoSpace(w) && (x == [] || IsSpace(x[0]))
    ensures TakeWord(w + x) == w
  {
    if w == [] {
      assert w + x == x;
    } else {
      assert (w + x)[0] == w[0] && (w + x)[1..] == w[1..] + x;
      TakeWordOf(w[1..], x);
      assert [w[0]] + w[1..] == w;
    }
  }

  lemma ExtractWordOf(w: string, x: string)
    requires w != [] && NoSpace(w) && (x == [] || IsSpace(x[0]))
    ensures ExtractWord(w + x) == (w, x)
  {
    var s := w + x;
    assert s[0] == w[0];
    assert SkipSpace(s) == s;
    TakeWordOf(w, x);
    assert s[|w|..] == x;
  }

  lemma ExtractAfterSpace(w: string, x: string)
    requires w != [] && NoSpace(w) && (x == [] || IsSpace(x[0]))
    ensures ExtractWord([' '] + w + x) == (w, x)
  {
    var s := [' '] + w + x;
    assert s[1..] == w + x;
    assert (w + x)[0] == w[0];
    assert SkipSpace(s) == SkipSpace(w + x) == w + x;
    TakeWordOf(w, x);
    assert (w + x)[|w|..] == x;
  }

  /** The three `>>` extractions recover the three tokens of a start line. */
  lemma StartLineOf(m: string, u: string, v: string)
    requires m != [] && NoSpace(m) && u != [] && NoSpace(u) && v != [] && NoSpace(v)
    ensures StartLineTokens(m + " " + u + " " + v) == (m, u, v)
  {
    var x2 := " " + v;
    var x1 := " " + u + x2;
    assert m + " " + u + " " + v == m + x1;
    ExtractWordOf(m, x1);
    assert x1 == [' '] + u + x2;
    ExtractAfterSpace(u, x2);
    assert x2 == [' '] + v + [];
    ExtractAfterSpace(v, []);
  }

  lemma MethodNameShape(m: Method)
    ensures MethodToString(m) != [] && NoSpace(MethodToString(m))
  {
    var s := MethodToString(m);
    assert forall i :: 0 <= i < |s| ==> IsUpper(s[i]);
  }

  lemma FirstCRLF(line: string, rest: string)
    requires '\r' !in line
    ensures Find(line + CRLF + rest, CRLF, 0) == Some(|line|)
  {
    var s := line + CRLF + rest;
    assert s[|line|..|line| + 2] == CRLF;
    forall j | 0 <= j < |line|
      ensures !OccursAt(s, CRLF, j)
    {
      assert s[j] == line[j];
    }
    FindFirst(s, CRLF, 0, |line|);
  }

  // ---- the header block ----

  lemma FieldTextShape(f: Field)
    requires FieldOk(f)
    ensures FieldText(f) != [] && FieldText(f)[0] != '\r'
    ensures '\r' !in FieldText(f) && '\n' !in FieldText(f)
  {
    var t := FieldText(f);
    forall i | 0 <= i < |t|
      ensures t[i] != '\r' && t[i] != '\n'
    {
      if i < |f.key| {
        assert t[i] == f.key[i];
      } else if i >= |f.key| + 2 {
        assert t[i] == f.value[i - |f.key| - 2];
      }
    }
  }

  /** Every CR starts a CRLF that is not followed by another CR. */
  predicate CRShaped(t: string)
  {
    forall j :: 0 <= j < |t| && t[j] == '\r' ==>
      j + 1 < |t| && t[j + 1] == '\n' && (j + 2 == |t| || t[j + 2] != '\r')
  }

  lemma CRShapedLine(ft: string, tr: string)
    requires '\r' !in ft && CRShaped(tr) && (tr == [] || tr[0] != '\r')
    ensures CRShaped(ft + CRLF + tr)
  {
    var t := ft + CRLF + tr;
    var n := |ft|;
    assert t[n] == '\r' && t[n + 1] == '\n';
    assert tr != [] ==> t[n + 2] == tr[0];
    assert forall j :: 0 <= j < n ==> t[j] == ft[j];
    assert forall j :: 0 <= j < n ==> t[j] != '\r';
    forall j | n + 2 <= j < |t| && t[j] == '\r'
      ensures j + 1 < |t| && t[j + 1] == '\n' && (j + 2 == |t| || t[j + 2] != '\r')
    {
      var k := j - n - 2;
      assert t[j] == tr[k];
      assert k + 1 < |tr| ==> t[j + 1] == tr[k + 1];
      assert k + 2 < |tr| ==> t[j + 2] == tr[k + 2];
    }
  }

  lemma {:induction false} RenderedCR(hs: seq<Field>)
    requires FieldsOk(hs)
    ensures CRShaped(RenderFields(hs))
  {
    if hs != [] {
      var rest := hs[1..];
      assert FieldsOk(rest) by {
        forall i | 0 <= i < |rest| ensures FieldOk(rest[i]) { assert rest[i] == hs[i + 1]; }
      }
      RenderedCR(rest);
      FieldTextShape(hs[0]);
      if rest != [] {
        FieldTextShape(rest[0]);
        assert RenderFields(rest)[0] == FieldText(rest[0])[0];
      }
      CRShapedLine(FieldText(hs[0]), RenderFields(rest));
    }
  }

  /** Non-empty rendered fields end with the last field's CRLF. */
  lemma RenderFieldsEnd(hs: seq<Field>)
    requires hs != []
    ensures var t := RenderFields(hs); |t| >= 2 && t[|t| - 2..] == CRLF
  {
    RenderFieldsSnoc(hs, |hs| - 1);
    assert hs[..|hs|] == hs;
  }

  /** The header block string_to_request cuts out: the rendered fields without their final CRLF. */
  function Block(hs: seq<Field>): string
    requires hs != []
  {
    RenderFieldsEnd(hs);
    RenderFields(hs)[..|RenderFields(hs)| - 2]
  }

  /** The blank-line search stops at the CRLF that ends t when t itself holds no CRLF CRLF. */
  lemma BlankLineAfter(x: string, t: string, c: string)
    requires CRShaped(t) && |t| >= 2 && t[|t| - 2..] == CRLF
    ensures Find(x + t + CRLF + c, BlankLine, |x|) == Some(|x| + |t| - 2)
  {
    var s := x + t + CRLF + c;
    var q := |x| + |t| - 2;
    assert forall k :: 0 <= k < |t| ==> s[|x| + k] == t[k];
    assert t[|t| - 2] == '\r' && t[|t| - 1] == '\n';
    assert s[q..q + 4] == BlankLine by {
      assert s[q] == '\r' && s[q + 1] == '\n' && s[q + 2] == '\r' && s[q + 3] == '\n';
    }
    forall j | |x| <= j < q
      ensures !OccursAt(s, BlankLine, j)
    {
      var k := j - |x|;
      assert s[j] == t[k] && s[j + 2] == t[k + 2];
      assert t[k] != '\r' || t[k + 2] != '\r';
      assert j + 4 <= |s| ==> s[j..j + 4][0] == s[j] && s[j..j + 4][2] == s[j + 2];
    }
    FindFirst(s, BlankLine, |x|, q);
  }

  /** The three pieces of a request text, as slices. */
  lemma SlicesOf(rl: string, t: string, c: string, rpos: nat, p: nat)
    requires |t| >= 2 && rpos == |rl| && p == |rl| + |t|
    ensures var s := rl + CRLF + t + CRLF + c;
            p + 4 <= |s| && s[..rpos] == rl && s[rpos + 2..p] == t[..|t| - 2] && s[p + 4..] == c
  {
    var s := rl + CRLF + t + CRLF + c;
    assert s[..rpos] == rl;
    assert s[rpos + 2..p] == t[..|t| - 2];
    assert s[p + 4..] == c;
  }

  /** How string_to_request cuts a start line, a CRLF-terminated header block, a blank line and a body. */
  lemma SplitOf(rl: string, t: string, c: string)
    requires '\r' !in rl && CRShaped(t) && |t| >= 2 && t[|t| - 2..] == CRLF
    ensures SplitRequest(rl + CRLF + t + CRLF + c) == Some(Parts(rl, t[..|t| - 2], c))
  {
    var s := rl + CRLF + t + CRLF + c;
    var rpos, p := |rl|, |rl| + |t|;
    assert s == rl + CRLF + (t + CRLF + c);
    FirstCRLF(rl, t + CRLF + c);
    assert |rl + CRLF| == rpos + 2;
    BlankLineAfter(rl + CRLF, t, c);
    SlicesOf(rl, t, c, rpos, p);
    SplitAt(s, rpos, p, rl, t[..|t| - 2], c);
  }

  /** SplitRequest in terms of where the two searches stop. */
  lemma SplitAt(s: string, rpos: nat, p: nat, line: string, block: string, body: string)
    requires Find(s, CRLF, 0) == Some(rpos) && Find(s, BlankLine, rpos + 2) == Some(p)
    requires p + 4 <= |s| && s[..rpos] == line && s[rpos + 2..p] == block && s[p + 4..] == body
    ensures SplitRequest(s) == Some(Parts(line, block, body))
  {
  }

  /** How a rendered request is cut: start line, the header block, the body. */
  lemma SplitRendered(r: Request)
    requires r.headers != [] && FieldsOk(r.headers) && '\r' !in RequestLine(r)
    ensures SplitRequest(RenderRequest(r)) == Some(Parts(RequestLine(r), Block(r.headers), r.content))
  {
    var t := RenderFields(r.headers);
    RenderedCR(r.headers);
    RenderFieldsEnd(r.headers);
    assert Block(r.headers) == t[..|t| - 2];
    SplitOf(RequestLine(r), t, r.content);
  }

  /** Deleting whitespace from ": value" and an optional CR leaves the value. */
  lemma ValueCleaned(v: string, suffix: string)
    requires NoSpace(v) && (suffix == [] || suffix == "\r")
    ensures RemoveSpace(" " + v + suffix) == v
  {
    RemoveSpaceAppend(" " + v, suffix);
    RemoveSpaceAppend(" ", v);
    assert RemoveSpace(suffix) == [];
    assert RemoveSpace(" ") == [];
  }

  /** One rendered field line, with or without its CR, parses to an appended field. */
  lemma FieldLineParses(st: FieldState, f: Field, suffix: string)
    requires Sorted(st.headers) && FieldOk(f)
    requires forall i :: 0 <= i < |st.headers| ==> StrLess(st.headers[i].key, f.key)
    requires suffix == [] || suffix == "\r"
    ensures ParseFieldLine(st, FieldText(f) + suffix) == FieldState(st.headers + [f], f.value)
  {
    var line := FieldText(f) + suffix;
    FieldLineSplits(f, suffix);
    FieldLineAt(st, line, |f.key|, f.key, " " + f.value + suffix);
    ValueCleaned(f.value, suffix);
    InsertAbove(st.headers, f.key, f.value);
  }

  /** A rendered field line has its first colon right after the key. */
  lemma FieldLineSplits(f: Field, suffix: string)
    requires FieldOk(f)
    ensures FindChar(FieldText(f) + suffix, ':') == Some(|f.key|)
    ensures (FieldText(f) + suffix)[..|f.key|] == f.key
    ensures (FieldText(f) + suffix)[|f.key| + 1..] == " " + f.value + suffix
  {
    var line := FieldText(f) + suffix;
    var n := |f.key|;
    assert forall j :: 0 <= j < n ==> line[j] == f.key[j];
    FindCharFirst(line, ':', n);
    assert line[..n] == f.key;
    assert line[n + 1..] == " " + f.value + suffix;
  }

  /** A line whose first colon is at n is cut there into key and value. */
  lemma FieldLineAt(st: FieldState, line: string, n: nat, key: string, value: string)
    requires Sorted(st.headers)
    requires FindChar(line, ':') == Some(n) && n < |line|
    requires line[..n] == key && line[n + 1..] == value
    ensures ParseFieldLine(st, line) == FieldState(Insert(st.headers, RemoveSpace(key), RemoveSpace(value)), RemoveSpace(value))
  {
  }

  lemma LinesAfterLine(a: string, b: string)
    requires '\n' !in a
    ensures Lines(a + "\n" + b) == [a] + Lines(b)
  {
    var s := a + "\n" + b;
    assert forall j :: 0 <= j < |a| ==> s[j] == a[j];
    FindCharFirst(s, '\n', |a|);
    assert s[..|a|] == a && s[|a| + 1..] == b;
  }

  lemma LinesSingle(a: string)
    requires a != [] && '\n' !in a
    ensures Lines(a) == [a]
  {
  }

  /** The header block's lines: every field's text, each but the last still carrying its CR. */
  lemma LinesOfBlock(hs: seq<Field>)
    requires hs != [] && FieldsOk(hs)
    ensures |hs| == 1 ==> Lines(Block(hs)) == [FieldText(hs[0])]
    ensures |hs| > 1 ==> Lines(Block(hs)) == [FieldText(hs[0]) + "\r"] + Lines(Block(hs[1..]))
  {
    var ft := FieldText(hs[0]);
    FieldTextShape(hs[0]);
    var rest := hs[1..];
    assert RenderFields(hs) == ft + CRLF + RenderFields(rest);
    if rest == [] {
      assert Block(hs) == ft;
      LinesSingle(ft);
    } else {
      RenderFieldsEnd(rest);
      assert Block(hs) == ft + "\r" + "\n" + Block(rest);
      assert '\n' !in ft + "\r";
      LinesAfterLine(ft + "\r", Block(rest));
    }
  }

  lemma SortedSplit(a: seq<Field>, f: Field, b: seq<Field>)
    requires Sorted(a + [f] + b)
    ensures Sorted(a) && Sorted((a + [f]) + b)
    ensures forall i :: 0 <= i < |a| ==> StrLess(a[i].key, f.key)
  {
    var all := a + [f] + b;
    assert forall i :: 0 <= i < |a| ==> all[i] == a[i];
    assert all[|a|] == f;
  }

  /** The header loop over the block of sorted fields rebuilds exactly those fields. */
  lemma {:induction false} BlockParses(st: FieldState, hs: seq<Field>)
    requires hs != [] && FieldsOk(hs) && Sorted(st.headers + hs)
    ensures Sorted(st.headers)
    ensures ParseFieldLines(st, Lines(Block(hs))).headers == st.headers + hs
    decreases |hs|
  {
    var f := hs[0];
    var rest := hs[1..];
    assert hs == [f] + rest;
    assert st.headers + hs == st.headers + [f] + rest;
    SortedSplit(st.headers, f, rest);
    LinesOfBlock(hs);
    assert FieldOk(f);
    if rest == [] {
      FieldLineParses(st, f, []);
      assert FieldText(f) + [] == FieldText(f);
      assert ParseFieldLines(st, [FieldText(f)]) == ParseFieldLine(st, FieldText(f));
    } else {
      FieldLineParses(st, f, "\r");
      var st' := FieldState(st.headers + [f], f.value);
      var ls := [FieldText(f) + "\r"] + Lines(Block(rest));
      assert ls[0] == FieldText(f) + "\r" && ls[1..] == Lines(Block(rest));
      assert ParseFieldLines(st, ls) == ParseFieldLines(st', Lines(Block(rest)));
      assert FieldsOk(rest) by {
        forall i | 0 <= i < |rest| ensures FieldOk(rest[i]) { assert rest[i] == hs[i + 1]; }
      }
      BlockParses(st', rest);
    }
  }

  // ---- the whole request ----

  lemma NoCRInStartLine(m: string, u: string, v: string)
    requires NoSpace(m) && NoSpace(u) && NoSpace(v)
    ensures '\r' !in m + " " + u + " " + v
  {
    var rl := m + " " + u + " " + v;
    var n := |m| + 1 + |u|;
    assert forall i :: 0 <= i < |m| ==> rl[i] == m[i];
    assert forall i :: |m| < i < n ==> rl[i] == u[i - |m| - 1];
    assert forall i :: n < i < |rl| ==> rl[i] == v[i - n - 1];
    assert rl[|m|] == ' ' && rl[n] == ' ';
  }

  /** A start line of three tokens is checked token by token. */
  lemma StartLineChecks(m: string, u: string, v: string)
    requires m != [] && NoSpace(m) && u != [] && NoSpace(u) && v != [] && NoSpace(v)
    ensures ParseStartLine(m + " " + u + " " + v) == CheckStartLine(StringToMethod(m), u, StringToVersion(v))
  {
    StartLineOf(m, u, v);
  }

  /** The rendered start line holds no CR, and its checks give back the method and the path. */
  lemma StartLineParses(r: Request)
    requires r.version == HTTP_1_1 && r.uri != [] && NoSpace(r.uri) && Lowercase(r.uri) == r.uri
    ensures '\r' !in RequestLine(r)
    ensures ParseStartLine(RequestLine(r)) == Success((r.httpMethod, r.uri))
  {
    var m := MethodToString(r.httpMethod);
    var v := VersionToString(r.version);
    MethodNameShape(r.httpMethod);
    assert NoSpace(v) && v != [];
    NoCRInStartLine(m, r.uri, v);
    StartLineChecks(m, r.uri, v);
    MethodRoundTrip(r.httpMethod);
    VersionRoundTrip(r.version);
  }

  /** Parsing the rendering of a renderable request gives that request back. */
  lemma RequestRoundTrip(r: Request)
    requires Renderable(r)
    ensures ParseRequest(RenderRequest(r)) == Success(r)
  {
    var hs := r.headers;
    assert ContentLengthKey in AsMap(hs);
    StartLineParses(r);
    SplitRendered(r);
    assert [] + hs == hs;
    BlockParses(FieldState([], []), hs);
    InsertPresent(hs, ContentLengthKey, NatToString(|r.content|));
  }
}
