/**
 * The trec-format result writer: one line per ranked hit, carrying a rank
 * counter that the caller resets at the start of each query.
 */
module Output {
  import opened Wrappers
  import opened JavaStrings

  /** The runtime exceptions stripPrefix can throw; add does not catch them. */
  datatype OutputError = StringIndexOutOfBounds | NumberFormat

  /**
   * stripPrefix: drops the first two characters ("MB" in "MB001") and renders
   * the rest again as an int, so that leading zeros and a plus sign disappear.
   */
  function StripPrefix(input: string): (r: Result<string, OutputError>)
    ensures |input| < 2 ==> r == Failure(StringIndexOutOfBounds)
    ensures |input| >= 2 ==> (r.Success? <==> ParseInt(input[2..]).Some?)
    ensures |input| >= 2 && ParseInt(input[2..]).None? ==> r == Failure(NumberFormat)
  {
    if |input| < 2 then Failure(StringIndexOutOfBounds)
    else
      match ParseInt(input[2..])
      case None => Failure(NumberFormat)
      case Some(n) => Success(IntToString(n))
  }

  /** The stripped number is the canonical text of the int the rest of the input denotes. */
  lemma StripPrefixReparses(input: string)
    requires StripPrefix(input).Success?
    ensures ParseInt(StripPrefix(input).value) == ParseInt(input[2..])
    ensures StripPrefix(input).value == IntToString(ParseInt(input[2..]).value)
  {
    ParseIntToString(ParseInt(input[2..]).value);
  }

  /** The six fields of one result line. */
  function LineFields(queryNumber: string, id: string, rank: int, scoreText: string): seq<string> {
    [queryNumber, "Q0", id, IntToString(rank), scoreText, "testRun\n"]
  }

  /** One result line: its six fields separated by tabs. */
  function LineText(queryNumber: string, id: string, rank: int, scoreText: string): string {
    Join(LineFields(queryNumber, id, rank, scoreText), '\t')
  }

  /** The line is the concatenation buildOutputString writes out. */
  lemma LineTextConcat(queryNumber: string, id: string, rank: int, scoreText: string)
    ensures LineText(queryNumber, id, rank, scoreText) ==
      queryNumber + "\tQ0\t" + id + "\t" + IntToString(rank) + "\t" + scoreText + "\ttestRun\n"
  {
    var f := LineFields(queryNumber, id, rank, scoreText);
    assert f[5..] == ["testRun\n"];
    assert Join(f[4..], '\t') == scoreText + "\t" + "testRun\n" by {
      assert f[4..][1..] == f[5..];
    }
    assert Join(f[3..], '\t') == IntToString(rank) + "\t" + Join(f[4..], '\t') by {
      assert f[3..][1..] == f[4..];
    }
    assert Join(f[2..], '\t') == id + "\t" + Join(f[3..], '\t') by {
      assert f[2..][1..] == f[3..];
    }
    assert Join(f[1..], '\t') == "Q0" + "\t" + Join(f[2..], '\t') by {
      assert f[1..][1..] == f[2..];
    }
    assert Join(f, '\t') == queryNumber + "\t" + Join(f[1..], '\t');
  }

  /**
   * buildOutputString, with the textual form of the float score given as
   * `scoreText` (Float.toString is not modelled).
   */
  function BuildOutputString(queryNum: string, id: string, rank: int, scoreText: string)
    : (r: Result<string, OutputError>)
    ensures r.Success? <==> StripPrefix(queryNum).Success?
    ensures r.Failure? ==> r.error == StripPrefix(queryNum).error
    ensures r.Success? ==> r.value == LineText(StripPrefix(queryNum).value, id, rank, scoreText)
  {
    match StripPrefix(queryNum)
    case Failure(e) => Failure(e)
    case Success(q) => Success(LineText(q, id, rank, scoreText))
  }

  lemma NoTabInNatToString(n: nat)
    ensures '\t' !in NatToString(n)
  {
  }

  lemma NoTabInIntToString(n: int)
    ensures '\t' !in IntToString(n)
  {
    if n < 0 {
      NoTabInNatToString(-n);
      assert IntToString(n) == "-" + NatToString(-n);
    } else {
      NoTabInNatToString(n);
    }
  }

  /**
   * A result line reads back, split on tabs, as the stripped query number,
   * "Q0", the id, the rank, the score and the run tag.
   */
  lemma LineTextFields(queryNum: string, id: string, rank: int, scoreText: string)
    requires StripPrefix(queryNum).Success?
    requires '\t' !in id && '\t' !in scoreText
    ensures var q := StripPrefix(queryNum).value;
      SplitAll(LineText(q, id, rank, scoreText), '\t')
        == [q, "Q0", id, IntToString(rank), scoreText, "testRun\n"]
  {
    var q := StripPrefix(queryNum).value;
    StripPrefixReparses(queryNum);
    NoTabInIntToString(ParseInt(queryNum[2..]).value);
    NoTabInIntToString(rank);
    var f := LineFields(q, id, rank, scoreText);
    assert forall i :: 0 <= i < |f| ==> '\t' !in f[i];
    SplitAllJoin(f, '\t');
  }

  /** Stripping the prefix of an already stripped number, given any new prefix, changes nothing. */
  lemma StripPrefixIdempotent(input: string, prefix: string)
    requires StripPrefix(input).Success? && |prefix| == 2
    ensures StripPrefix(prefix + StripPrefix(input).value) == StripPrefix(input)
  {
    var q := StripPrefix(input).value;
    assert (prefix + q)[2..] == q;
    var n :| ParseInt(input[2..]) == Some(n) && q == IntToString(n);
    ParseIntToString(n);
  }

  /** A zero in front of the digits after the two-character prefix changes nothing. */
  lemma StripPrefixLeadingZero(prefix: string, s: string)
    requires |prefix| == 2 && |s| > 0 && IsDigit(s[0])
    ensures StripPrefix(prefix + "0" + s) == StripPrefix(prefix + s)
  {
    assert (prefix + "0" + s)[2..] == "0" + s;
    assert (prefix + s)[2..] == s;
    if AllDigits(s) {
      DigitsValueLeadingZero(s);
    } else {
      var i :| 0 <= i < |s| && !IsDigit(s[i]);
      assert ("0" + s)[i + 1] == s[i];
    }
  }

  /** The leading zeros of a topic number disappear: "MB001" becomes "1". */
  lemma StripPrefixDropsLeadingZeros()
    ensures StripPrefix("MB001") == Success("1")
  {
    assert "MB001"[2..] == "001";
    assert "001" == "0" + ("0" + "1");
    DigitsValueLeadingZero("1");
    DigitsValueLeadingZero("01");
    assert DigitsValue("1") == 1 by {
      assert "1"[..0] == "";
    }
    assert "0" + "01" == "001";
    assert DigitsValue("001") == 1;
    assert AllDigits("001");
    assert ParseInt("001") == Some(1);
    assert DigitChar(1) == '1';
    assert IntToString(1) == "1";
  }

  /** The result writer. Lines written go to `written`, in place of the output file. */
  class OutputBuilder {
    var rank: int
    var written: seq<string>
    /** Float.toString of a score, which this model does not spell out. */
    const renderScore: real -> string

    constructor (renderScore: real -> string)
      ensures rank == 1 && written == [] && this.renderScore == renderScore
    {
      rank := 1;
      written := [];
      this.renderScore := renderScore;
    }

    method ResetRank()
      modifies this
      ensures rank == 1 && written == old(written)
    {
      rank := 1;
    }

    /**
     * add: writes one line carrying the current rank, then increments the rank.
     * A failed write (`writeFails`, an IOException) is swallowed and the rank
     * still advances; a malformed query number throws out of add before the
     * increment.
     */
    method Add(queryNum: string, id: string, score: real, writeFails: bool)
      returns (outcome: Result<(), OutputError>)
      modifies this
      ensures StripPrefix(queryNum).Failure? ==>
        outcome == Failure(StripPrefix(queryNum).error) && rank == old(rank) && written == old(written)
      ensures StripPrefix(queryNum).Success? ==>
        outcome == Success(()) && rank == old(rank) + 1 &&
        written == old(written) +
          (if writeFails then []
           else [LineText(StripPrefix(queryNum).value, id, old(rank), renderScore(score))])
    {
      var line := BuildOutputString(queryNum, id, rank, renderScore(score));
      if line.Failure? {
        return Failure(line.error);
      }
      if !writeFails {
        written := written + [line.value];
      }
      rank := rank + 1;
      outcome := Success(());
    }
  }
}
