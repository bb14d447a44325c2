/**
 * retrieveQueriesFromTextFile: the line-driven reader of the TREC topics file.
 * A line starting with "<top>" or "</top>" flips the `open` flag; opening
 * starts a fresh query, closing appends it and drops the reference. "<num>"
 * and "<title>" lines, with their markers removed, set the fields of the
 * current query.
 */
module QueryFile {
  import opened Wrappers
  import opened JavaStrings

  /** A topic as the parser fills it in; a field never set stays null (`None`). */
  datatype QueryXml = QueryXml(num: Option<string>, title: Option<string>)

  const EmptyQuery: QueryXml := QueryXml(None, None)

  /**
   * A "<num>" or "<title>" line read while `query` is null (after a closing
   * tag, before the next opening one): the NullPointerException of the field
   * assignment, at line `line` of the file (counted from 0).
   */
  datatype QueryFileError = NullQuery(line: nat)

  /** The parser's locals: the flag, the current query (`None` for null) and the list so far. */
  datatype ParserState = ParserState(open: bool, query: Option<QueryXml>, queries: seq<QueryXml>)

  const Initial: ParserState := ParserState(false, Some(EmptyQuery), [])

  /** While a block is open there is always a current query. */
  predicate Valid(st: ParserState) {
    st.open ==> st.query.Some?
  }

  predicate IsToggle(line: string) {
    StartsWith(line, "<top>") || StartsWith(line, "</top>")
  }

  predicate IsNum(line: string) {
    StartsWith(line, "<num>")
  }

  predicate IsTitle(line: string) {
    StartsWith(line, "<title>")
  }

  /** A line matching none of the three prefixes. */
  predicate IsPlain(line: string) {
    !IsToggle(line) && !IsNum(line) && !IsTitle(line)
  }

  /** The num of a "<num>" line: every "<num> Number: " removed, then every " </num>". */
  function NumValue(line: string): (r: string)
    ensures |r| <= |line|
  {
    ReplaceAll(ReplaceAll(line, "<num> Number: ", ""), " </num>", "")
  }

  /** The title of a "<title>" line: every "<title> " removed, then every " </title>". */
  function TitleValue(line: string): (r: string)
    ensures |r| <= |line|
  {
    ReplaceAll(ReplaceAll(line, "<title> ", ""), " </title>", "")
  }

  /** One iteration of the read loop, for the line at index `index`. */
  function Step(st: ParserState, line: string, index: nat): (r: Result<ParserState, QueryFileError>)
    requires Valid(st)
    ensures r.Success? ==> Valid(r.value)
  {
    if IsToggle(line) then
      if !st.open then Success(ParserState(true, Some(EmptyQuery), st.queries))
      else Success(ParserState(false, None, st.queries + [st.query.value]))
    else if IsNum(line) then
      match st.query
      case None => Failure(NullQuery(index))
      case Some(q) => Success(st.(query := Some(q.(num := Some(NumValue(line))))))
    else if IsTitle(line) then
      match st.query
      case None => Failure(NullQuery(index))
      case Some(q) => Success(st.(query := Some(q.(title := Some(TitleValue(line))))))
    else
      Success(st)
  }

  /** The state after reading `lines`, or the first failure. */
  function Parse(lines: seq<string>): (r: Result<ParserState, QueryFileError>)
    ensures r.Success? ==> Valid(r.value)
  {
    if lines == [] then Success(Initial)
    else
      match Parse(lines[..|lines| - 1])
      case Failure(e) => Failure(e)
      case Success(st) => Step(st, lines[|lines| - 1], |lines| - 1)
  }

  /** retrieveQueriesFromTextFile over the lines of the file. */
  method RetrieveQueries(lines: seq<string>) returns (r: Result<seq<QueryXml>, QueryFileError>)
    ensures Parse(lines).Success? ==> r == Success(Parse(lines).value.queries)
    ensures Parse(lines).Failure? ==> r == Failure(Parse(lines).error)
  {
    var queries: seq<QueryXml> := [];
    var query: Option<QueryXml> := Some(EmptyQuery);
    var open := false;
    var n := 0;
    while n < |lines|
      invariant 0 <= n <= |lines|
      invariant Parse(lines[..n]) == Success(ParserState(open, query, queries))
    {
      var line := lines[n];
      assert lines[..n + 1][..n] == lines[..n];
      if IsToggle(line) {
        open := !open;
        if open {
          query := Some(EmptyQuery);
        } else {
          queries := queries + [query.value];
          query := None;
        }
      } else if IsNum(line) {
        if query.None? {
          assert Parse(lines[..n + 1]) == Failure(NullQuery(n));
          FailureSticks(lines, n + 1);
          return Failure(NullQuery(n));
        }
        line := ReplaceAll(line, "<num> Number: ", "");
        line := ReplaceAll(line, " </num>", "");
        query := Some(query.value.(num := Some(line)));
      } else if IsTitle(line) {
        if query.None? {
          assert Parse(lines[..n + 1]) == Failure(NullQuery(n));
          FailureSticks(lines, n + 1);
          return Failure(NullQuery(n));
        }
        line := ReplaceAll(line, "<title> ", "");
        line := ReplaceAll(line, " </title>", "");
        query := Some(query.value.(title := Some(line)));
      }
      n := n + 1;
    }
    assert lines[..n] == lines;
    r := Success(queries);
  }

  /** Once reading has failed, the later lines do not matter. */
  lemma {:induction false} FailureSticks(lines: seq<string>, k: nat)
    requires k <= |lines| && Parse(lines[..k]).Failure?
    ensures Parse(lines) == Parse(lines[..k])
    decreases |lines| - k
  {
    if k < |lines| {
      var init := lines[..|lines| - 1];
      assert init[..k] == lines[..k];
      FailureSticks(init, k);
    } else {
      assert lines[..k] == lines;
    }
  }

  // ---------------------------------------------------------------------------
  // Blocks and counts

  /** The number of toggle lines. */
  function Toggles(lines: seq<string>): nat {
    if lines == [] then 0
    else Toggles(lines[..|lines| - 1]) + (if IsToggle(lines[|lines| - 1]) then 1 else 0)
  }

  /**
   * The flag is open after an odd number of toggles, the query is null exactly
   * after a closing toggle, and one query has been appended per closing toggle.
   */
  lemma {:induction false} ParseCounts(lines: seq<string>)
    requires Parse(lines).Success?
    ensures var st := Parse(lines).value;
      |st.queries| == Toggles(lines) / 2 &&
      st.open == (Toggles(lines) % 2 == 1) &&
      (st.query.None? <==> Toggles(lines) > 0 && Toggles(lines) % 2 == 0)
  {
    if lines != [] {
      ParseCounts(lines[..|lines| - 1]);
    }
  }

  /** The line at `n` sets a field while no query is open: the situation that throws. */
  predicate FieldWithoutQuery(lines: seq<string>, n: nat) {
    n < |lines| && !IsToggle(lines[n]) && (IsNum(lines[n]) || IsTitle(lines[n])) &&
    Toggles(lines[..n]) > 0 && Toggles(lines[..n]) % 2 == 0
  }

  /**
   * Reading fails exactly at the first field line that appears after a
   * closing toggle and before the next opening one.
   */
  lemma {:induction false} ParseFailure(lines: seq<string>)
    ensures Parse(lines).Success? <==> forall n :: 0 <= n < |lines| ==> !FieldWithoutQuery(lines, n)
    ensures Parse(lines).Failure? ==>
      FieldWithoutQuery(lines, Parse(lines).error.line) &&
      forall m :: 0 <= m < Parse(lines).error.line ==> !FieldWithoutQuery(lines, m)
  {
    if lines != [] {
      var init := lines[..|lines| - 1];
      var last := |lines| - 1;
      ParseFailure(init);
      assert lines[..last] == init;
      forall m | 0 <= m < last
        ensures FieldWithoutQuery(lines, m) == FieldWithoutQuery(init, m)
      {
        assert lines[..m] == init[..m];
      }
      if Parse(init).Success? {
        ParseCounts(init);
        var st := Parse(init).value;
        assert Parse(lines) == Step(st, lines[last], last);
        assert Step(st, lines[last], last).Failure? <==> FieldWithoutQuery(lines, last);
        if Parse(lines).Failure? {
          assert Parse(lines).error.line == last;
        }
      } else {
        assert Parse(lines) == Parse(init);
      }
    }
  }

  /** A line matching no prefix leaves the state as it is. */
  lemma PlainStep(st: ParserState, line: string, index: nat)
    requires Valid(st) && IsPlain(line)
    ensures Step(st, line, index) == Success(st)
  {
  }

  /**
   * Inserting a line that matches no prefix changes nothing, provided no
   * failure is reported after it (the index of a later failure shifts by one).
   */
  lemma {:induction false} PlainLineChangesNothing(a: seq<string>, p: string, b: seq<string>)
    requires IsPlain(p)
    requires Parse(a + b).Success?
    ensures Parse(a + [p] + b) == Parse(a + b)
    decreases |b|
  {
    if b == [] {
      assert a + [p] + b == a + [p] && (a + [p])[..|a|] == a;
      assert a + b == a;
    } else {
      var b0 := b[..|b| - 1];
      var x := b[|b| - 1];
      assert (a + [p] + b)[..|a + [p] + b| - 1] == a + [p] + b0;
      assert (a + b)[..|a + b| - 1] == a + b0;
      assert Parse(a + b0).Success?;
      PlainLineChangesNothing(a, p, b0);
    }
  }

  // ---------------------------------------------------------------------------
  // Fields

  /** The num of the last "<num>" line, if any. */
  function LastNum(lines: seq<string>): Option<string> {
    if lines == [] then None
    else if IsNum(lines[|lines| - 1]) then Some(NumValue(lines[|lines| - 1]))
    else LastNum(lines[..|lines| - 1])
  }

  /** The title of the last "<title>" line that is not also a "<num>" line, if any. */
  function LastTitle(lines: seq<string>): Option<string> {
    if lines == [] then None
    else if IsTitle(lines[|lines| - 1]) && !IsNum(lines[|lines| - 1]) then Some(TitleValue(lines[|lines| - 1]))
    else LastTitle(lines[..|lines| - 1])
  }

  function Latest(earlier: Option<string>, later: Option<string>): Option<string> {
    if later.Some? then later else earlier
  }

  /** Inside an open block, each field ends up with the value of its last line. */
  lemma {:induction false} BlockBody(a: seq<string>, body: seq<string>, q: QueryXml, qs: seq<QueryXml>)
    requires Parse(a) == Success(ParserState(true, Some(q), qs))
    requires forall i :: 0 <= i < |body| ==> !IsToggle(body[i])
    ensures Parse(a + body) == Success(ParserState(true,
      Some(QueryXml(Latest(q.num, LastNum(body)), Latest(q.title, LastTitle(body)))), qs))
    decreases |body|
  {
    if body == [] {
      assert a + body == a;
    } else {
      var b0 := body[..|body| - 1];
      assert (a + body)[..|a + body| - 1] == a + b0;
      BlockBody(a, b0, q, qs);
    }
  }

  /**
   * A block "<top>", body, "</top>" appends one query whose num and title come
   * from the last "<num>" and "<title>" lines of the body (null when absent).
   */
  lemma Block(a: seq<string>, open: string, body: seq<string>, close: string)
    requires Parse(a).Success? && !Parse(a).value.open
    requires IsToggle(open) && IsToggle(close)
    requires forall i :: 0 <= i < |body| ==> !IsToggle(body[i])
    ensures Parse(a + [open] + body + [close]) == Success(ParserState(false, None,
      Parse(a).value.queries + [QueryXml(LastNum(body), LastTitle(body))]))
  {
    var qs := Parse(a).value.queries;
    assert (a + [open])[..|a|] == a;
    assert Parse(a + [open]) == Success(ParserState(true, Some(EmptyQuery), qs));
    BlockBody(a + [open], body, EmptyQuery, qs);
    var full := a + [open] + body + [close];
    assert full[..|full| - 1] == a + [open] + body;
  }

  /** An opening marker starts with '<', so it cannot start inside text without '<'. */
  lemma NoOpenMarkerIn(x: string, t: string, open: string)
    requires '<' !in x && |open| > 0 && open[0] == '<'
    ensures forall i :: 0 <= i < |x| ==> !StartsWith((x + t)[i..], open)
  {
  }

  /**
   * A closing marker is a space followed by '<': it cannot start inside text
   * without '<' that the marker itself follows.
   */
  lemma NoCloseMarkerIn(x: string, close: string)
    requires '<' !in x && |close| >= 2 && close[0] == ' ' && close[1] == '<'
    ensures forall i :: 0 <= i < |x| ==> !StartsWith((x + close)[i..], close)
  {
    var s := x + close;
    forall i | 0 <= i < |x|
      ensures !StartsWith(s[i..], close)
    {
      if i + 1 < |x| {
        assert s[i + 1] == x[i + 1] != '<';
      } else {
        assert s[i + 1] == close[0] != '<';
      }
      assert s[i..][1] == s[i + 1];
    }
  }

  /** Removing the markers around text without '<' gives back the text. */
  lemma MarkersRemoved(open: string, x: string, close: string)
    requires '<' !in x && |open| > 0 && open[0] == '<'
    requires |close| >= 2 && close[0] == ' ' && close[1] == '<'
    requires ReplaceAll(close, open, "") == close
    ensures ReplaceAll(ReplaceAll(open + x + close, open, ""), close, "") == x
  {
    var middle := x + close;
    assert open + x + close == open + middle;
    ReplaceAllHit(open, middle, "");
    NoOpenMarkerIn(x, close, open);
    ReplaceAllSkipPrefix(x, close, open, "");
    assert ReplaceAll(open + x + close, open, "") == middle;
    NoCloseMarkerIn(x, close);
    ReplaceAllSkipPrefix(x, close, close, "");
    ReplaceAllHit(close, "", "");
    assert close + "" == close;
    assert ReplaceAll(middle, close, "") == x + ReplaceAll(close, close, "");
  }

  /** "<num> Number: " + x + " </num>" gives num x, for x without '<' (such as "MB001"). */
  lemma NumOfTaggedLine(x: string)
    requires '<' !in x
    ensures NumValue("<num> Number: " + x + " </num>") == x
  {
    var open, close := "<num> Number: ", " </num>";
    assert |close| < |open|;
    MarkersRemoved(open, x, close);
  }

  /** "<title> " + x + " </title>" gives title x, for x without '<'. */
  lemma TitleOfTaggedLine(x: string)
    requires '<' !in x
    ensures TitleValue("<title> " + x + " </title>") == x
  {
    var open, close := "<title> ", " </title>";
    NoOpenMarkerIn(close[..1], close[1..], open);
    assert close[..1] + close[1..] == close;
    ReplaceAllSkipPrefix(close[..1], close[1..], open, "");
    assert close[1..][..|open|] != open by {
      assert close[1..][1] != open[1];
    }
    assert ReplaceAll(close[1..], open, "") == [close[1]] + ReplaceAll(close[2..], open, "");
    MarkersRemoved(open, x, close);
  }
}
