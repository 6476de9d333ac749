/**
 * Building a graph from the lines of a description: after skipped lines, the
 * first line declares the number of edges N, and each following line names
 * the source and the destination of one directed edge.
 */
module Build {
  import opened Common
  import opened Lines
  import opened Graphs

  /** Why a description is refused. */
  datatype BuildError =
    | NoEdgeCount        // the first content line gives no count, or gives -1
    | EdgeCountMismatch  // the number of edge lines differs from the declared count
    | TooManyEdges       // an edge line would store more nodes than the capacity
    | MalformedEdgeLine  // an edge line holds a single name

  // ---------------------------------------------------------------------------
  // Reading a count the way `%i` reads a decimal number
  // ---------------------------------------------------------------------------

  predicate IsDigit(c: char) {
    '0' <= c <= '9'
  }

  /** The first position at or after `i` that does not hold a decimal digit, or `|s|`. */
  function DigitsEnd(s: string, i: nat): (r: nat)
    requires i <= |s|
    ensures i <= r <= |s|
    ensures forall j :: i <= j < r ==> IsDigit(s[j])
    ensures r < |s| ==> !IsDigit(s[r])
    decreases |s| - i
  {
    if i < |s| && IsDigit(s[i]) then DigitsEnd(s, i + 1) else i
  }

  /** The value of a string of decimal digits, most significant first. */
  function DecimalValue(d: string): nat
    requires forall j :: 0 <= j < |d| ==> IsDigit(d[j])
  {
    if d == [] then 0 else 10 * DecimalValue(d[..|d| - 1]) + DigitValue(d[|d| - 1])
  }

  /** The value of one decimal digit. */
  function DigitValue(c: char): (r: nat)
    requires IsDigit(c)
    ensures r < 10
  {
    c as int - '0' as int
  }

  /**
   * The number at the start of `s`: white space, an optional sign, then one or
   * more decimal digits, read up to the first character that is not a digit.
   */
  function ParseCount(s: string): (r: Option<int>)
    ensures r.Some? <==>
      var p := SkipSpace(s, 0);
      var d := if p < |s| && (s[p] == '-' || s[p] == '+') then p + 1 else p;
      d < |s| && IsDigit(s[d])
    ensures r.Some? && r.value < 0 ==> s[SkipSpace(s, 0)] == '-'
  {
    var p := SkipSpace(s, 0);
    var negative := p < |s| && s[p] == '-';
    var d := if p < |s| && (s[p] == '-' || s[p] == '+') then p + 1 else p;
    var e := DigitsEnd(s, d);
    if e == d then None
    else
      var v: int := DecimalValue(s[d..e]);
      Some(if negative then -v else v)
  }

  /** The usual decimal rendering of `n`, without leading zeros. */
  function DecimalString(n: nat): (r: string)
    ensures 0 < |r| && forall j :: 0 <= j < |r| ==> IsDigit(r[j])
  {
    var last := ['0' + (n % 10) as char];
    if n < 10 then last else DecimalString(n / 10) + last
  }

  /** Decimal digits are read back as the number they render. */
  lemma {:induction false} DecimalValueOfString(n: nat)
    ensures DecimalValue(DecimalString(n)) == n
  {
    var r := DecimalString(n);
    if n >= 10 {
      DecimalValueOfString(n / 10);
      assert r[..|r| - 1] == DecimalString(n / 10);
    }
  }

  /** White space is skipped up to the first character that is not white space. */
  lemma SkipSpaceStops(s: string, i: nat, j: nat)
    requires i <= j < |s| && !IsSpace(s[j])
    requires forall m :: i <= m < j ==> IsSpace(s[m])
    ensures SkipSpace(s, i) == j
  {
  }

  /** Digits are read up to the first character that is not a digit, or to the end of the line. */
  lemma DigitsEndStops(s: string, i: nat, j: nat)
    requires i <= j <= |s| && (j < |s| ==> !IsDigit(s[j]))
    requires forall m :: i <= m < j ==> IsDigit(s[m])
    ensures DigitsEnd(s, i) == j
  {
  }

  /**
   * A line holding `n`, possibly indented and followed by anything that does
   * not start with a digit (nothing, a line break, more text), declares `n` edges.
   */
  lemma ParseCountOfDecimal(indent: string, n: nat, rest: string)
    requires forall j :: 0 <= j < |indent| ==> IsSpace(indent[j])
    requires rest == [] || !IsDigit(rest[0])
    ensures ParseCount(indent + DecimalString(n) + rest) == Some(n)
  {
    var d := DecimalString(n);
    var s := indent + d + rest;
    var p, e := |indent|, |indent| + |d|;
    assert forall j :: 0 <= j < p ==> s[j] == indent[j];
    assert forall j :: p <= j < e ==> s[j] == d[j - p];
    assert e < |s| ==> s[e] == rest[0];
    SkipSpaceStops(s, 0, p);
    assert s[p] == d[0] && s[p] != '-' && s[p] != '+';
    DigitsEndStops(s, p, e);
    assert s[p..e] == d;
    DecimalValueOfString(n);
  }

  /** A line whose first non-white-space character is neither a sign nor a digit declares no count. */
  lemma ParseCountNone(s: string)
    requires FirstNonWhiteSpace(s) >= 0
    requires var c := s[FirstNonWhiteSpace(s)]; c != '-' && c != '+' && !IsDigit(c)
    ensures ParseCount(s) == None
  {
  }

  // ---------------------------------------------------------------------------
  // Reading two names the way `%40s %40s` does
  // ---------------------------------------------------------------------------

  /** The most characters one name can have. */
  const TokenWidth: nat := 40

  /**
   * The end of the name that starts at `i`: it stops at white space, at the end
   * of the line, or after `width` characters, whichever comes first.
   */
  function TokenEnd(s: string, i: nat, width: nat): (r: nat)
    requires i <= |s|
    ensures i <= r <= |s| && r - i <= width
    ensures forall j :: i <= j < r ==> !IsSpace(s[j])
    ensures r < |s| && r - i < width ==> IsSpace(s[r])
    decreases width
  {
    if i < |s| && width > 0 && !IsSpace(s[i]) then TokenEnd(s, i + 1, width - 1) else i
  }

  /** No character of `t` is white space. */
  predicate NoSpace(t: string) {
    forall j :: 0 <= j < |t| ==> !IsSpace(t[j])
  }

  /**
   * The source and destination names of an edge line, or `None` when the line
   * holds only one name. A name longer than `TokenWidth` is cut, and what is
   * left of it is read as the next name.
   */
  function EdgeTokens(s: string): (r: Option<(string, string)>)
    ensures r.Some? ==> 0 < |r.value.0| <= TokenWidth && NoSpace(r.value.0)
    ensures r.Some? ==> 0 < |r.value.1| <= TokenWidth && NoSpace(r.value.1)
  {
    var p1 := SkipSpace(s, 0);
    var e1 := TokenEnd(s, p1, TokenWidth);
    var p2 := SkipSpace(s, e1);
    var e2 := TokenEnd(s, p2, TokenWidth);
    if p1 < |s| && p2 < |s| then Some((s[p1..e1], s[p2..e2])) else None
  }

  /**
   * An edge line holding two short names, possibly indented, separated by any
   * white space and followed by nothing or by white space and anything else
   * (a line break, a third name), reads back as those two names.
   */
  lemma EdgeTokensRoundTrip(indent: string, a: string, sep: string, b: string, rest: string)
    requires forall j :: 0 <= j < |indent| ==> IsSpace(indent[j])
    requires 0 < |a| <= TokenWidth && NoSpace(a)
    requires 0 < |sep| && forall j :: 0 <= j < |sep| ==> IsSpace(sep[j])
    requires 0 < |b| <= TokenWidth && NoSpace(b)
    requires rest == [] || IsSpace(rest[0])
    ensures EdgeTokens(indent + a + sep + b + rest) == Some((a, b))
  {
    var s := indent + a + sep + b + rest;
    var p1 := |indent|;
    var e1 := p1 + |a|;
    var p2 := e1 + |sep|;
    var e2 := p2 + |b|;
    assert forall j :: 0 <= j < p1 ==> IsSpace(s[j]) by {
      assert forall j :: 0 <= j < p1 ==> s[j] == indent[j];
    }
    assert s[p1..e1] == a;
    assert forall j :: e1 <= j < p2 ==> IsSpace(s[j]) by {
      assert forall j :: e1 <= j < p2 ==> s[j] == sep[j - e1];
    }
    assert s[p2..e2] == b;
    assert e2 < |s| ==> IsSpace(s[e2]) by {
      assert e2 < |s| ==> s[e2] == rest[0];
    }
    EdgeTokensOfPieces(s, p1, e1, p2, e2);
  }

  /**
   * A line made of white space, a name of at most `TokenWidth` characters,
   * white space, another such name, then the end of the line or white space
   * gives those two names.
   */
  lemma EdgeTokensOfPieces(s: string, p1: nat, e1: nat, p2: nat, e2: nat)
    requires p1 < e1 < p2 < e2 <= |s| && e1 - p1 <= TokenWidth && e2 - p2 <= TokenWidth
    requires forall j :: 0 <= j < p1 ==> IsSpace(s[j])
    requires NoSpace(s[p1..e1])
    requires forall j :: e1 <= j < p2 ==> IsSpace(s[j])
    requires NoSpace(s[p2..e2])
    requires e2 < |s| ==> IsSpace(s[e2])
    ensures EdgeTokens(s) == Some((s[p1..e1], s[p2..e2]))
  {
    assert forall j :: p1 <= j < e1 ==> s[j] == s[p1..e1][j - p1];
    assert forall j :: p2 <= j < e2 ==> s[j] == s[p2..e2][j - p2];
    SkipSpaceStops(s, 0, p1);
    TokenEndStops(s, p1, e1, TokenWidth);
    SkipSpaceStops(s, e1, p2);
    TokenEndStops(s, p2, e2, TokenWidth);
  }

  /** A name is read up to the first white space or the end of the line when that comes within `width` characters. */
  lemma TokenEndStops(s: string, i: nat, j: nat, width: nat)
    requires i <= j <= |s| && j - i <= width && (j < |s| ==> IsSpace(s[j]))
    requires forall m :: i <= m < j ==> !IsSpace(s[m])
    ensures TokenEnd(s, i, width) == j
    decreases width
  {
    if i < j {
      TokenEndStops(s, i + 1, j, width - 1);
    }
  }

  // ---------------------------------------------------------------------------
  // The graph a description denotes
  // ---------------------------------------------------------------------------

  /** The lines the builder reads, in order: every line that is not skipped. */
  function Content(lines: seq<string>): (r: seq<string>)
    ensures forall k :: 0 <= k < |r| ==> !Ignorable(r[k])
  {
    if lines == [] then []
    else
      var last := lines[|lines| - 1];
      Content(lines[..|lines| - 1]) + (if Ignorable(last) then [] else [last])
  }

  /** The lines of a description are read one after the other. */
  lemma {:induction false} ContentAppend(a: seq<string>, b: seq<string>)
    ensures Content(a + b) == Content(a) + Content(b)
  {
    if b != [] {
      var b' := b[..|b| - 1];
      assert (a + b)[..|a + b| - 1] == a + b';
      ContentAppend(a, b');
    } else {
      assert a + b == a;
    }
  }

  /** Reading one more line adds it to the content unless it is skipped. */
  lemma ContentStep(lines: seq<string>, k: nat)
    requires k < |lines|
    ensures Content(lines[..k + 1]) == Content(lines[..k]) + (if Ignorable(lines[k]) then [] else [lines[k]])
  {
    assert lines[..k + 1][..k] == lines[..k];
  }

  /** Names and neighbour lists built so far. */
  datatype Store = Store(names: seq<string>, adj: seq<seq<nat>>)

  /** One neighbour list per name, each neighbour a stored node. */
  predicate WellFormed(st: Store) {
    |st.adj| == |st.names| && EdgesInRange(st.adj, |st.names|)
  }

  /**
   * What one edge line `a b` does: store a node named `a` and one named `b`,
   * then add an edge from the first node named `a` to the first node named `b`.
   */
  function AddEdge(st: Store, a: string, b: string): (r: Store)
    requires WellFormed(st)
    ensures WellFormed(r)
  {
    var names := st.names + [a, b];
    assert names[|st.names|] == a && names[|st.names| + 1] == b;
    var i, j := IndexOf(names, a), IndexOf(names, b);
    var adj := st.adj + [[], []];
    Store(names, adj[i := [j] + adj[i]])
  }

  /** One edge line read into `st`, in a graph that can hold `cap` nodes. */
  function EdgeLineStep(st: Store, line: string, cap: nat): (r: Result<Store, BuildError>)
    requires WellFormed(st)
    ensures r.Ok? ==> WellFormed(r.value) && |r.value.names| == |st.names| + 2 <= cap
    ensures r.Ok? ==> r.value.names[..|st.names|] == st.names
    ensures r.Err? ==> r.error == MalformedEdgeLine || r.error == TooManyEdges
  {
    match EdgeTokens(line)
    case None => Err(MalformedEdgeLine)
    case Some((a, b)) => if |st.names| + 2 > cap then Err(TooManyEdges) else Ok(AddEdge(st, a, b))
  }

  /** One edge line is read without error iff it holds two names and there is room for two nodes. */
  lemma EdgeLineStepOk(st: Store, line: string, cap: nat)
    requires WellFormed(st)
    ensures EdgeLineStep(st, line, cap).Ok? <==> EdgeTokens(line).Some? && |st.names| + 2 <= cap
  {
  }

  /** The edge lines read in order into an empty graph that can hold `cap` nodes; the first error stops it. */
  function Edges(edgeLines: seq<string>, cap: nat): (r: Result<Store, BuildError>)
    ensures r.Ok? ==> WellFormed(r.value) && |r.value.names| == 2 * |edgeLines| <= cap
  {
    if edgeLines == [] then Ok(Store([], []))
    else
      match Edges(edgeLines[..|edgeLines| - 1], cap)
      case Err(e) => Err(e)
      case Ok(st) => EdgeLineStep(st, edgeLines[|edgeLines| - 1], cap)
  }

  /** Reading one more edge line. */
  lemma EdgesSnoc(edgeLines: seq<string>, line: string, cap: nat)
    ensures Edges(edgeLines + [line], cap) ==
      if Edges(edgeLines, cap).Err? then Edges(edgeLines, cap)
      else EdgeLineStep(Edges(edgeLines, cap).value, line, cap)
  {
    assert (edgeLines + [line])[..|edgeLines|] == edgeLines;
  }

  /** Reading one more content line after the count line adds one edge line. */
  lemma ContentSnocEdges(content: seq<string>, line: string, cap: nat)
    requires content != []
    ensures (content + [line])[0] == content[0]
    ensures Edges((content + [line])[1..], cap) ==
      if Edges(content[1..], cap).Err? then Edges(content[1..], cap)
      else EdgeLineStep(Edges(content[1..], cap).value, line, cap)
  {
    assert (content + [line])[1..] == content[1..] + [line];
    EdgesSnoc(content[1..], line, cap);
  }

  /** An error on an edge line is final: the lines after it do not matter. */
  lemma {:induction false} EdgesErrorIsFinal(edgeLines: seq<string>, more: seq<string>, cap: nat)
    requires Edges(edgeLines, cap).Err?
    ensures Edges(edgeLines + more, cap) == Edges(edgeLines, cap)
  {
    if more != [] {
      var more' := more[..|more| - 1];
      EdgesErrorIsFinal(edgeLines, more', cap);
      assert edgeLines + more == (edgeLines + more') + [more[|more| - 1]];
      EdgesSnoc(edgeLines + more', more[|more| - 1], cap);
    } else {
      assert edgeLines + more == edgeLines;
    }
  }

  /** Edge lines are read without error iff each holds two names and their nodes fit the capacity. */
  lemma {:induction false} EdgesOkIff(edgeLines: seq<string>, cap: nat)
    ensures Edges(edgeLines, cap).Ok? <==>
      (forall k :: 0 <= k < |edgeLines| ==> EdgeTokens(edgeLines[k]).Some?) && 2 * |edgeLines| <= cap
  {
    if edgeLines != [] {
      var init, last := edgeLines[..|edgeLines| - 1], edgeLines[|edgeLines| - 1];
      EdgesOkIff(init, cap);
      if Edges(edgeLines, cap).Ok? {
        EdgesLastOk(edgeLines, cap);
        forall k | 0 <= k < |edgeLines|
          ensures EdgeTokens(edgeLines[k]).Some?
        {
          if k != |edgeLines| - 1 {
            assert init[k] == edgeLines[k];
          }
        }
      } else if Edges(init, cap).Ok? {
        EdgeLineStepOk(Edges(init, cap).value, last, cap);
      } else if 2 * |init| <= cap {
        var k :| 0 <= k < |init| && EdgeTokens(init[k]).None?;
        assert init[k] == edgeLines[k];
      }
    }
  }

  /** The count the first content line declares, -1 when it declares none. */
  function CountOf(line: string): (r: int)
    ensures r == -1 <==> ParseCount(line) == None || ParseCount(line) == Some(-1)
  {
    match ParseCount(line)
    case Some(n) => n
    case None => -1
  }

  /** Room for two new nodes per declared edge; a negative count leaves no room. */
  function Capacity(n: int): (r: nat)
    ensures r % 2 == 0
    ensures n >= 0 ==> r / 2 == n
    ensures n < 0 ==> r == 0
  {
    if n < 0 then 0 else 2 * n
  }

  /**
   * The graph a description denotes, or why it is refused: see `FromContent`.
   */
  function Build(lines: seq<string>): (r: Result<Store, BuildError>)
    ensures r.Ok? ==> WellFormed(r.value)
    ensures r.Ok? ==> Content(lines) != [] && |r.value.names| == 2 * CountOf(Content(lines)[0])
  {
    FromContent(Content(lines))
  }

  /**
   * The graph denoted by the content lines of a description: with no content
   * line the count stays -1 and differs from the 0 edges read; the first
   * content line must declare a count other than -1; the edge lines that
   * follow must be read without error and be exactly as many as declared.
   */
  function FromContent(content: seq<string>): (r: Result<Store, BuildError>)
    ensures r.Ok? ==> WellFormed(r.value)
    ensures r.Ok? ==> content != [] && |r.value.names| == 2 * (|content| - 1) == 2 * CountOf(content[0])
    ensures content == [] ==> r == Err(EdgeCountMismatch)
  {
    if content == [] then Err(EdgeCountMismatch)
    else
      var n := CountOf(content[0]);
      if n == -1 then Err(NoEdgeCount)
      else
        match Edges(content[1..], Capacity(n))
        case Err(e) => Err(e)
        case Ok(st) => if |content| - 1 == n then Ok(st) else Err(EdgeCountMismatch)
  }

  /** Skipped lines can be added anywhere in a description without changing what it denotes. */
  lemma SkippedLinesDoNotMatter(before: seq<string>, line: string, after: seq<string>)
    requires Ignorable(line)
    ensures Build(before + [line] + after) == Build(before + after)
  {
    ContentDropsSkipped(before, line, after);
  }

  /** A skipped line adds nothing to the content, wherever it stands. */
  lemma ContentDropsSkipped(before: seq<string>, line: string, after: seq<string>)
    requires Ignorable(line)
    ensures Content(before + [line] + after) == Content(before + after)
  {
    assert Content(before + [line]) == Content(before) by {
      assert (before + [line])[..|before|] == before;
    }
    ContentAppend(before + [line], after);
    ContentAppend(before, after);
  }

  /**
   * A description is accepted iff it has a content line, every later content
   * line holds two names, and the count the first declares equals the number
   * of those lines.
   */
  lemma BuildOkIff(lines: seq<string>)
    ensures Build(lines).Ok? <==>
      var content := Content(lines);
      && content != []
      && (forall k :: 1 <= k < |content| ==> EdgeTokens(content[k]).Some?)
      && CountOf(content[0]) == |content| - 1
  {
    var content := Content(lines);
    if content != [] {
      var edgeLines := content[1..];
      EdgesOkIff(edgeLines, Capacity(CountOf(content[0])));
      assert forall k :: 1 <= k < |content| ==> content[k] == edgeLines[k - 1];
    }
  }

  /**
   * With well-formed edge lines, one edge line more than declared is refused
   * as too many edges, and fewer than declared as a count mismatch.
   */
  lemma WrongEdgeCount(lines: seq<string>)
    requires Content(lines) != [] && CountOf(Content(lines)[0]) >= 0
    requires forall k :: 1 <= k < |Content(lines)| ==> EdgeTokens(Content(lines)[k]).Some?
    ensures |Content(lines)| - 1 > CountOf(Content(lines)[0]) ==> Build(lines) == Err(TooManyEdges)
    ensures |Content(lines)| - 1 < CountOf(Content(lines)[0]) ==> Build(lines) == Err(EdgeCountMismatch)
  {
    var content := Content(lines);
    var n := CountOf(content[0]);
    var edgeLines := content[1..];
    assert forall k :: 0 <= k < |edgeLines| ==> edgeLines[k] == content[k + 1];
    if |edgeLines| > n {
      FirstErrorIsTooMany(edgeLines, Capacity(n), n);
    } else {
      EdgesOkIff(edgeLines, Capacity(n));
    }
  }

  /**
   * Reading well-formed edge lines into room for `2 * m` nodes fails with
   * too many edges when there are more than `m` lines.
   */
  lemma {:induction false} FirstErrorIsTooMany(edgeLines: seq<string>, cap: nat, m: nat)
    requires cap == 2 * m && |edgeLines| > m
    requires forall k :: 0 <= k < |edgeLines| ==> EdgeTokens(edgeLines[k]).Some?
    ensures Edges(edgeLines, cap) == Err(TooManyEdges)
  {
    var init := edgeLines[..|edgeLines| - 1];
    assert forall k :: 0 <= k < |init| ==> init[k] == edgeLines[k];
    if |init| > m {
      FirstErrorIsTooMany(init, cap, m);
    } else {
      EdgesOkIff(init, cap);
    }
  }

  // ---------------------------------------------------------------------------
  // Errors are final
  // ---------------------------------------------------------------------------

  /** Once the first content line declares no count, the description is refused whatever follows. */
  lemma NoCountIsFinal(lines: seq<string>, k: nat)
    requires k < |lines| && Content(lines[..k + 1]) != [] && CountOf(Content(lines[..k + 1])[0]) == -1
    ensures Build(lines) == Err(NoEdgeCount)
  {
    assert lines == lines[..k + 1] + lines[k + 1..];
    ContentAppend(lines[..k + 1], lines[k + 1..]);
  }

  /** Once an edge line is refused, the description is refused with that error whatever follows. */
  lemma EdgeErrorIsFinal(lines: seq<string>, k: nat)
    requires k < |lines| && Content(lines[..k + 1]) != []
    requires CountOf(Content(lines[..k + 1])[0]) != -1
    requires Edges(Content(lines[..k + 1])[1..], Capacity(CountOf(Content(lines[..k + 1])[0]))).Err?
    ensures Build(lines) == Edges(Content(lines[..k + 1])[1..], Capacity(CountOf(Content(lines[..k + 1])[0])))
  {
    var head, tail := Content(lines[..k + 1]), Content(lines[k + 1..]);
    assert Content(lines) == head + tail by {
      assert lines == lines[..k + 1] + lines[k + 1..];
      ContentAppend(lines[..k + 1], lines[k + 1..]);
    }
    EdgeErrorInContent(head, tail);
  }

  /** Content lines after a refused edge line do not change the outcome. */
  lemma EdgeErrorInContent(head: seq<string>, tail: seq<string>)
    requires head != [] && CountOf(head[0]) != -1
    requires Edges(head[1..], Capacity(CountOf(head[0]))).Err?
    ensures FromContent(head + tail) == Edges(head[1..], Capacity(CountOf(head[0])))
  {
    var content := head + tail;
    assert content[0] == head[0];
    assert content[1..] == head[1..] + tail;
    EdgesErrorIsFinal(head[1..], tail, Capacity(CountOf(head[0])));
  }

  // ---------------------------------------------------------------------------
  // The shape of an accepted description
  // ---------------------------------------------------------------------------

  /** The source name of a two-name edge line. */
  function Source(line: string): string
    requires EdgeTokens(line).Some?
  {
    EdgeTokens(line).value.0
  }

  /** The destination name of a two-name edge line. */
  function Target(line: string): string
    requires EdgeTokens(line).Some?
  {
    EdgeTokens(line).value.1
  }

  /** Reading edge lines without error: the lines before the last were read without error and the last added its edge. */
  lemma EdgesLastOk(edgeLines: seq<string>, cap: nat)
    requires edgeLines != [] && Edges(edgeLines, cap).Ok?
    ensures var init, last := edgeLines[..|edgeLines| - 1], edgeLines[|edgeLines| - 1];
      && Edges(init, cap).Ok? && EdgeTokens(last).Some?
      && Edges(edgeLines, cap).value == AddEdge(Edges(init, cap).value, Source(last), Target(last))
  {
  }

  /** Adding an edge keeps the stored names, the first node of each name and every edge. */
  lemma AddEdgeKeeps(st: Store, a: string, b: string, x: nat, y: nat)
    requires WellFormed(st) && x < |st.adj| && y in st.adj[x]
    ensures y in AddEdge(st, a, b).adj[x]
  {
    var names := st.names + [a, b];
    var i := IndexOf(names, a);
    assert (st.adj + [[], []])[x] == st.adj[x];
  }

  /** The store after an edge line ends with its two names and holds the edge it names. */
  lemma AddEdgeNew(st: Store, a: string, b: string)
    requires WellFormed(st)
    ensures var r := AddEdge(st, a, b);
      && r.names[|st.names|] == a && r.names[|st.names| + 1] == b
      && IndexOf(r.names, b) in r.adj[IndexOf(r.names, a)]
  {
  }

  /** Adding an edge adds exactly the edge between the first nodes bearing its two names. */
  lemma AddEdgeAdds(st: Store, a: string, b: string, x: nat, y: nat)
    requires WellFormed(st) && x < |AddEdge(st, a, b).adj|
    ensures var names := AddEdge(st, a, b).names;
      y in AddEdge(st, a, b).adj[x] <==>
        (x == IndexOf(names, a) && y == IndexOf(names, b)) || (x < |st.adj| && y in st.adj[x])
  {
    var names := st.names + [a, b];
    var i := IndexOf(names, a);
    if x < |st.adj| {
      assert (st.adj + [[], []])[x] == st.adj[x];
    }
  }

  /**
   * Edge line `k` stores two nodes at positions `2k` and `2k + 1`, named by its
   * two names, and an edge from the first node named like its source to the
   * first node named like its destination.
   */
  lemma {:induction false} EdgesShape(edgeLines: seq<string>, cap: nat, k: nat)
    requires Edges(edgeLines, cap).Ok? && k < |edgeLines|
    ensures EdgeTokens(edgeLines[k]).Some?
    ensures var st := Edges(edgeLines, cap).value;
      && st.names[2 * k] == Source(edgeLines[k]) && st.names[2 * k + 1] == Target(edgeLines[k])
      && IndexOf(st.names, Target(edgeLines[k])) in st.adj[IndexOf(st.names, Source(edgeLines[k]))]
  {
    var init, last := edgeLines[..|edgeLines| - 1], edgeLines[|edgeLines| - 1];
    EdgesLastOk(edgeLines, cap);
    var st0 := Edges(init, cap).value;
    if k == |edgeLines| - 1 {
      AddEdgeNew(st0, Source(last), Target(last));
    } else {
      var line := edgeLines[k];
      assert init[k] == line;
      EdgesShape(init, cap, k);
      var a, b := Source(line), Target(line);
      assert st0.names[2 * k] == a && st0.names[2 * k + 1] == b;
      IndexOfAppend(st0.names, [Source(last), Target(last)], a);
      IndexOfAppend(st0.names, [Source(last), Target(last)], b);
      AddEdgeKeeps(st0, Source(last), Target(last), IndexOf(st0.names, a), IndexOf(st0.names, b));
    }
  }

  /** Every edge of an accepted graph comes from an edge line, as `EdgesShape` describes. */
  lemma {:induction false} EdgesOnlyFromLines(edgeLines: seq<string>, cap: nat, x: nat, y: nat)
    requires Edges(edgeLines, cap).Ok?
    requires x < |Edges(edgeLines, cap).value.adj| && y in Edges(edgeLines, cap).value.adj[x]
    ensures exists k :: 0 <= k < |edgeLines| && FromLine(edgeLines[k], Edges(edgeLines, cap).value.names, x, y)
  {
    var init, last := edgeLines[..|edgeLines| - 1], edgeLines[|edgeLines| - 1];
    EdgesLastOk(edgeLines, cap);
    var st0 := Edges(init, cap).value;
    var st := Edges(edgeLines, cap).value;
    var a, b := Source(last), Target(last);
    AddEdgeAdds(st0, a, b, x, y);
    if x == IndexOf(st.names, a) && y == IndexOf(st.names, b) {
      assert FromLine(edgeLines[|edgeLines| - 1], st.names, x, y);
    } else {
      EdgesOnlyFromLines(init, cap, x, y);
      var k :| 0 <= k < |init| && FromLine(init[k], st0.names, x, y);
      EdgesShape(init, cap, k);
      IndexOfAppend(st0.names, [a, b], Source(init[k]));
      IndexOfAppend(st0.names, [a, b], Target(init[k]));
      assert edgeLines[k] == init[k];
      assert FromLine(edgeLines[k], st.names, x, y);
    }
  }

  /** The edge `x -> y` is the one the edge line `line` adds among the nodes `names`. */
  predicate FromLine(line: string, names: seq<string>, x: nat, y: nat) {
    && EdgeTokens(line).Some?
    && Source(line) in names && Target(line) in names
    && x == IndexOf(names, Source(line)) && y == IndexOf(names, Target(line))
  }

  /** An accepted description denotes what its edge lines give. */
  lemma BuildIsEdges(lines: seq<string>)
    requires Build(lines).Ok?
    ensures Content(lines) != [] && CountOf(Content(lines)[0]) == |Content(lines)| - 1
    ensures Build(lines) == Edges(Content(lines)[1..], Capacity(CountOf(Content(lines)[0])))
  {
  }

  /**
   * In an accepted description, edge line `i` (content line `i + 1`) is
   * stored as nodes `2i` and `2i + 1` with an edge between the first nodes
   * bearing its two names.
   */
  lemma BuildEdgeLine(lines: seq<string>, i: nat)
    requires Build(lines).Ok? && i + 1 < |Content(lines)|
    ensures EdgeTokens(Content(lines)[i + 1]).Some?
    ensures var st, line := Build(lines).value, Content(lines)[i + 1];
      && st.names[2 * i] == Source(line) && st.names[2 * i + 1] == Target(line)
      && IndexOf(st.names, Target(line)) in st.adj[IndexOf(st.names, Source(line))]
  {
    BuildIsEdges(lines);
    var content := Content(lines);
    var edgeLines, cap := content[1..], Capacity(CountOf(content[0]));
    assert edgeLines[i] == content[i + 1];
    EdgesShape(edgeLines, cap, i);
  }

  // ---------------------------------------------------------------------------
  // Building the graph line by line
  // ---------------------------------------------------------------------------

  /** One edge line applied both to a graph object and to the store it stands for keeps them in step. */
  lemma SameNeighboursAfterEdge(before: seq<seq<nat>>, after: seq<seq<nat>>, st: Store, a: string, b: string)
    requires WellFormed(st) && SameNeighbours(before, st.adj)
    requires var names := st.names + [a, b]; var i, j := IndexOf(names, a), IndexOf(names, b);
      && |after| == |before| + 2
      && multiset(after[i]) == multiset((before + [[], []])[i]) + multiset{j}
      && forall x :: 0 <= x < |after| && x != i ==> after[x] == (before + [[], []])[x]
    ensures SameNeighbours(after, AddEdge(st, a, b).adj)
  {
    var names := st.names + [a, b];
    var i, j := IndexOf(names, a), IndexOf(names, b);
    var spec := AddEdge(st, a, b).adj;
    forall x | 0 <= x < |after|
      ensures multiset(after[x]) == multiset(spec[x])
    {
      if x < |before| {
        assert (before + [[], []])[x] == before[x];
        assert (st.adj + [[], []])[x] == st.adj[x];
      }
    }
  }

  /** A skipped line adds nothing to the content. */
  lemma ContentSkips(lines: seq<string>, k: nat)
    requires k < |lines| && Ignorable(lines[k])
    ensures Content(lines[..k + 1]) == Content(lines[..k])
  {
    ContentStep(lines, k);
  }

  /** A line that is not skipped is the next content line. */
  lemma ContentKeeps(lines: seq<string>, k: nat)
    requires k < |lines| && !Ignorable(lines[k])
    ensures Content(lines[..k + 1]) == Content(lines[..k]) + [lines[k]]
  {
    ContentStep(lines, k);
  }

  /**
   * Once every line is read without error, the description is accepted iff
   * the edge lines read are as many as declared.
   */
  lemma BuildAtEnd(lines: seq<string>, st: Store)
    ensures Content(lines) != [] && CountOf(Content(lines)[0]) != -1 &&
            Edges(Content(lines)[1..], Capacity(CountOf(Content(lines)[0]))) == Ok(st) ==>
      Build(lines) == if |Content(lines)| - 1 == CountOf(Content(lines)[0]) then Ok(st) else Err(EdgeCountMismatch)
  {
  }

  /**
   * Stores the two names of an edge line as new nodes of `g` and adds an edge
   * from the first node named like the source to the first node named like the
   * destination: `g` then stands for the store `AddEdge(st, a, b)`.
   */
  method StoreEdge(g: Graph, a: string, b: string, ghost st: Store)
    requires g.Valid() && g.AllUnseen() && g.count + 2 <= g.capacity
    requires WellFormed(st) && g.names == st.names && SameNeighbours(g.adj, st.adj)
    modifies g
    ensures g.Valid() && g.AllUnseen()
    ensures g.names == AddEdge(st, a, b).names && SameNeighbours(g.adj, AddEdge(st, a, b).adj)
  {
    ghost var adjBefore, visitedBefore := g.adj, g.visited;
    g.InsertNode(a);
    g.InsertNode(b);
    assert g.visited == visitedBefore + [false, false];
    assert g.AllUnseen();
    assert g.names == st.names + [a, b] && g.adj == adjBefore + [[], []];
    assert g.names[|st.names|] == a && g.names[|st.names| + 1] == b;
    var n1 := g.FindNode(a);
    var n2 := g.FindNode(b);
    g.InsertEdge(n1.value, n2.value);
    SameNeighboursAfterEdge(adjBefore, g.adj, st, a, b);
  }

  /**
   * Reads the edge count from the first content line, -1 when it declares
   * none, and creates a graph with room for two nodes per declared edge.
   */
  method StartGraph(line: string) returns (edgeAmount: int, g: Graph)
    ensures edgeAmount == CountOf(line) && fresh(g)
    ensures edgeAmount != -1 ==> Reading(g, edgeAmount, [line], Store([], []))
  {
    edgeAmount := -1;
    var count := ParseCount(line);
    if count.Some? {
      edgeAmount := count.value;
    }
    g := new Graph(Capacity(edgeAmount));
    assert [line][1..] == [];
  }

  /**
   * Reads one edge line into `g`, which stands for the store `st` after the
   * content lines `content`: fails as `EdgeLineStep` does, and otherwise
   * leaves `g` standing for the store `EdgeLineStep` gives.
   */
  method ReadEdgeLine(g: Graph, line: string, ghost edgeAmount: int, ghost content: seq<string>, ghost st: Store)
    returns (failure: Option<BuildError>)
    requires Reading(g, edgeAmount, content, st)
    modifies g
    ensures failure.Some? ==> Edges((content + [line])[1..], g.capacity) == Err(failure.value)
    ensures failure.None? ==>
      && EdgeLineStep(st, line, g.capacity).Ok?
      && Reading(g, edgeAmount, content + [line], EdgeLineStep(st, line, g.capacity).value)
  {
    ContentSnocEdges(content, line, g.capacity);
    var tokens := EdgeTokens(line);
    if tokens.None? {
      return Some(MalformedEdgeLine);
    }
    var (first, second) := tokens.value;
    if g.count + 2 > g.capacity {
      return Some(TooManyEdges);
    }
    StoreEdge(g, first, second, st);
    return None;
  }

  /**
   * The builder has read the content lines `content`, the first of which
   * declared `edgeAmount` edges, and `g` stands for the store `st` the edge
   * lines after it give.
   */
  ghost predicate Reading(g: Graph, edgeAmount: int, content: seq<string>, st: Store)
    reads g
  {
    && content != [] && edgeAmount == CountOf(content[0]) && edgeAmount != -1
    && g.Valid() && g.AllUnseen() && g.capacity == Capacity(edgeAmount)
    && Edges(content[1..], g.capacity) == Ok(st)
    && g.names == st.names && SameNeighbours(g.adj, st.adj)
  }

  /**
   * The builder has read the first `k` lines of `lines`: `content` holds the
   * lines read so far; before the first of them no graph exists and the
   * counters have their initial values; after it, `g` stands for what the
   * content lines give and `insertedEdges` counts the edge lines.
   */
  ghost predicate Progress(lines: seq<string>, k: nat, content: seq<string>, readEdges: bool,
                           edgeAmount: int, insertedEdges: int, g: Graph?, st: Store)
    reads g
  {
    && k <= |lines| && content == Content(lines[..k])
    && (readEdges <==> content != [])
    && (!readEdges ==> edgeAmount == -1 && insertedEdges == 0 && g == null)
    && (readEdges ==> g != null && insertedEdges == |content| - 1 && Reading(g, edgeAmount, content, st))
  }

  /**
   * One turn of the builder's loop on line `k`: a skipped line changes
   * nothing, the first content line reads the edge count and creates the
   * graph, and a later one is read as an edge line. Fails with the error the
   * whole description is refused with.
   */
  method ReadLine(lines: seq<string>, k: nat, readEdges: bool, edgeAmount: int, insertedEdges: int,
                  g: Graph?, ghost content: seq<string>, ghost st: Store)
    returns (failure: Option<BuildError>, readEdges': bool, edgeAmount': int, insertedEdges': int,
             g': Graph?, ghost content': seq<string>, ghost st': Store)
    requires k < |lines| && Progress(lines, k, content, readEdges, edgeAmount, insertedEdges, g, st)
    modifies g
    ensures failure.Some? ==> Build(lines) == Err(failure.value)
    ensures failure.None? ==> Progress(lines, k + 1, content', readEdges', edgeAmount', insertedEdges', g', st')
    ensures g' == g || fresh(g')
  {
    failure := None;
    readEdges', edgeAmount', insertedEdges', g', content', st' := readEdges, edgeAmount, insertedEdges, g, content, st;
    var line := lines[k];
    if LineIsComment(line) || LineIsBlank(line) || !LineIsAlphanumeric(line) {
      ContentSkips(lines, k);
    } else if !readEdges {
      ContentKeeps(lines, k);
      var created;
      edgeAmount', created := StartGraph(line);
      g' := created;
      assert content + [line] == [line];
      content' := [line];
      if edgeAmount' == -1 {
        NoCountIsFinal(lines, k);
        return Some(NoEdgeCount), readEdges', edgeAmount', insertedEdges', g', content', st';
      }
      readEdges' := true;
      st' := Store([], []);
    } else {
      ContentKeeps(lines, k);
      var refused := ReadEdgeLine(g, line, edgeAmount, content, st);
      if refused.Some? {
        EdgeErrorIsFinal(lines, k);
        return refused, readEdges', edgeAmount', insertedEdges', g', content', st';
      }
      insertedEdges' := insertedEdges + 1;
      st' := EdgeLineStep(st, line, g.capacity).value;
      content' := content + [line];
    }
  }

  /**
   * Reads the lines of a description in order, as the builder's loop does,
   * and stops at the first refused line with the error the whole description
   * is refused with.
   */
  method ReadLines(lines: seq<string>)
    returns (failure: Option<BuildError>, edgeAmount: int, insertedEdges: int, g: Graph?, ghost st: Store)
    ensures failure.Some? ==> Build(lines) == Err(failure.value)
    ensures failure.None? && g == null ==> Content(lines) == [] && edgeAmount == -1 && insertedEdges == 0
    ensures failure.None? && g != null ==>
      fresh(g) && insertedEdges == |Content(lines)| - 1 && Reading(g, edgeAmount, Content(lines), st)
  {
    edgeAmount := -1;
    insertedEdges := 0;
    var readEdges := false;
    g := null;
    st := Store([], []);
    ghost var content: seq<string> := [];
    var k := 0;
    assert lines[..k] == [];
    while k < |lines|
      invariant 0 <= k <= |lines|
      invariant Progress(lines, k, content, readEdges, edgeAmount, insertedEdges, g, st)
      invariant g != null ==> fresh(g)
    {
      failure, readEdges, edgeAmount, insertedEdges, g, content, st :=
        ReadLine(lines, k, readEdges, edgeAmount, insertedEdges, g, content, st);
      if failure.Some? {
        return;
      }
      k := k + 1;
    }
    assert lines[..|lines|] == lines;
    failure := None;
  }

  /**
   * Builds the graph a description denotes: reads its lines, then refuses it
   * unless the edge lines read are as many as declared. The result is the
   * graph `Build` denotes, with no node visited, or the error `Build` gives.
   */
  method BuildGraph(lines: seq<string>) returns (r: Result<Graph, BuildError>)
    ensures r.Err? ==> Build(lines) == Err(r.error)
    ensures r.Ok? ==>
      && Build(lines).Ok?
      && r.value.Valid() && r.value.AllUnseen()
      && r.value.names == Build(lines).value.names
      && SameNeighbours(r.value.adj, Build(lines).value.adj)
  {
    var failure, edgeAmount, insertedEdges, g, st := ReadLines(lines);
    if failure.Some? {
      return Err(failure.value);
    }
    if edgeAmount != insertedEdges {
      if g != null {
        BuildAtEnd(lines, st);
      }
      return Err(EdgeCountMismatch);
    }
    BuildAtEnd(lines, st);
    return Ok(g);
  }
}
