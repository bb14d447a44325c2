/**
 * Reading the tweets file into documents for the two indexes: parseTweets
 * (id and tweet text) and parseHashtags (id and the hashtag-only text).
 * A line is "<id>\t<text>"; a line that does not split into two parts is
 * printed and skipped.
 */
module Tweets {
  import opened Wrappers
  import opened JavaStrings

  /** A document of the primary index: the stored id and the tweet text. */
  datatype TweetDocument = TweetDocument(id: string, tweet: string)

  /** A document of the hashtag index: the stored id and the hashtag text. */
  datatype HashtagDocument = HashtagDocument(id: string, hashtags: string)

  /**
   * tweet.split("\t") followed by reading elements 0 and 1; `None` is the
   * ArrayIndexOutOfBoundsException raised when there is no element 1.
   */
  function IdAndMessage(line: string): (r: Option<(string, string)>)
    ensures r.Some? ==> '\t' in line && '\t' !in r.value.0 && '\t' !in r.value.1
  {
    var parts := Split(line, '\t');
    if |parts| < 2 then None else Some((parts[0], parts[1]))
  }

  // ---------------------------------------------------------------------------
  // Which lines are malformed

  lemma {:induction false} NonDelimiterGivesPiece(s: string, d: char, k: nat)
    requires k < |s| && s[k] != d
    ensures exists i :: 0 <= i < |SplitAll(s, d)| && SplitAll(s, d)[i] != ""
    decreases |s|
  {
    var pieces := SplitAll(s, d);
    var rest := SplitAll(s[1..], d);
    if s[0] == d {
      NonDelimiterGivesPiece(s[1..], d, k - 1);
      var i :| 0 <= i < |rest| && rest[i] != "";
      assert pieces[i + 1] == rest[i];
    } else {
      assert pieces[0] == [s[0]] + rest[0];
    }
  }

  lemma {:induction false} LaterNonDelimiterGivesPiece(s: string, d: char, j: nat, k: nat)
    requires j < k < |s| && s[j] == d && s[k] != d
    ensures exists i :: 1 <= i < |SplitAll(s, d)| && SplitAll(s, d)[i] != ""
    decreases |s|
  {
    var pieces := SplitAll(s, d);
    var rest := SplitAll(s[1..], d);
    if j > 0 {
      LaterNonDelimiterGivesPiece(s[1..], d, j - 1, k - 1);
      var i :| 1 <= i < |rest| && rest[i] != "";
      if s[0] == d {
        assert pieces[i + 1] == rest[i];
      } else {
        assert pieces[i] == rest[i];
      }
    } else {
      NonDelimiterGivesPiece(s[1..], d, k - 1);
      var i :| 0 <= i < |rest| && rest[i] != "";
      assert pieces[i + 1] == rest[i];
    }
  }

  lemma {:induction false} PieceGivesLaterNonDelimiter(s: string, d: char, i: nat)
    requires 1 <= i < |SplitAll(s, d)| && SplitAll(s, d)[i] != ""
    ensures exists j, k :: 0 <= j < k < |s| && s[j] == d && s[k] != d
    decreases |s|
  {
    var pieces := SplitAll(s, d);
    var rest := SplitAll(s[1..], d);
    if s[0] == d {
      assert pieces[i] == rest[i - 1];
      if i == 1 {
        assert s[1..][..|rest[0]|] == rest[0];
        assert s[1] == rest[0][0];
        assert s[0] == d && s[1] != d;
      } else {
        PieceGivesLaterNonDelimiter(s[1..], d, i - 1);
        var j, k :| 0 <= j < k < |s[1..]| && s[1..][j] == d && s[1..][k] != d;
        assert s[j + 1] == d && s[k + 1] != d;
      }
    } else {
      assert pieces[i] == rest[i];
      PieceGivesLaterNonDelimiter(s[1..], d, i);
      var j, k :| 0 <= j < k < |s[1..]| && s[1..][j] == d && s[1..][k] != d;
      assert s[j + 1] == d && s[k + 1] != d;
    }
  }

  /**
   * A line is skipped exactly when it has no tab or nothing but tabs follows
   * its first tab (an empty tail).
   */
  lemma MalformedLine(line: string)
    ensures IdAndMessage(line).None? <==>
      forall j, k :: 0 <= j < k < |line| && line[j] == '\t' ==> line[k] == '\t'
  {
    SplitHasSecond(line, '\t');
    if IdAndMessage(line).Some? {
      var i :| 1 <= i < |SplitAll(line, '\t')| && SplitAll(line, '\t')[i] != "";
      PieceGivesLaterNonDelimiter(line, '\t', i);
    } else if j, k :| 0 <= j < k < |line| && line[j] == '\t' && line[k] != '\t' {
      LaterNonDelimiterGivesPiece(line, '\t', j, k);
    }
  }

  /**
   * The id is the tab-free text before the first tab, and the message the
   * tab-free text after it, up to the end of the line or a second tab.
   */
  lemma IdAndMessageShape(line: string)
    requires IdAndMessage(line).Some?
    ensures var r := IdAndMessage(line).value;
      '\t' !in r.0 && '\t' !in r.1 &&
      StartsWith(line, r.0 + "\t" + r.1) &&
      (|line| == |r.0| + 1 + |r.1| || line[|r.0| + 1 + |r.1|] == '\t')
  {
    var parts := Split(line, '\t');
    var pieces := SplitAll(line, '\t');
    assert '\t' in line;
    assert parts[0] == pieces[0] && parts[1] == pieces[1];
    var id, message := pieces[0], pieces[1];
    assert IdAndMessage(line).value == (id, message);
    FirstTwoPieces(line, id, message);
  }

  lemma FirstTwoPieces(line: string, id: string, message: string)
    requires |SplitAll(line, '\t')| > 1
    requires id == SplitAll(line, '\t')[0] && message == SplitAll(line, '\t')[1]
    ensures StartsWith(line, id + "\t" + message)
    ensures |line| == |id| + 1 + |message| || line[|id| + 1 + |message|] == '\t'
  {
    SplitAllTail(line, '\t');
    var tail := line[|id| + 1..];
    assert SplitAll(tail, '\t')[0] == message;
    assert line == id + "\t" + tail by {
      assert line[..|id|] == id;
      assert line[|id|] == '\t';
    }
    TabTailShape(id, tail, message);
  }

  lemma TabTailShape(id: string, tail: string, message: string)
    requires StartsWith(tail, message)
    requires |tail| == |message| || tail[|message|] == '\t'
    ensures StartsWith(id + "\t" + tail, id + "\t" + message)
    ensures var line := id + "\t" + tail;
      |line| == |id| + 1 + |message| || line[|id| + 1 + |message|] == '\t'
  {
    var line := id + "\t" + tail;
    assert line[..|id| + 1 + |message|] == id + "\t" + tail[..|message|];
    if |tail| > |message| {
      assert line[|id| + 1 + |message|] == tail[|message|];
    }
  }

  // ---------------------------------------------------------------------------
  // parseTweets

  /** The document parseTweets adds for one line, if the line is well formed. */
  function TweetDocumentOf(line: string): Option<TweetDocument> {
    match IdAndMessage(line)
    case None => None
    case Some((id, message)) => Some(TweetDocument(id, message))
  }

  /** The documents parseTweets adds to the primary index, in file order. */
  function TweetDocuments(lines: seq<string>): seq<TweetDocument> {
    if lines == [] then []
    else
      var docs := TweetDocuments(lines[..|lines| - 1]);
      match TweetDocumentOf(lines[|lines| - 1])
      case None => docs
      case Some(doc) => docs + [doc]
  }

  /** The lines printed, in file order, because they could not be split. */
  function MalformedLines(lines: seq<string>): seq<string> {
    if lines == [] then []
    else
      var printed := MalformedLines(lines[..|lines| - 1]);
      var line := lines[|lines| - 1];
      if IdAndMessage(line).None? then printed + [line] else printed
  }

  /** parseTweets: one document per well-formed line; every other line printed, none fatal. */
  method ParseTweets(lines: seq<string>) returns (docs: seq<TweetDocument>, printed: seq<string>)
    ensures docs == TweetDocuments(lines)
    ensures printed == MalformedLines(lines)
  {
    docs, printed := [], [];
    var n := 0;
    while n < |lines|
      invariant 0 <= n <= |lines|
      invariant docs == TweetDocuments(lines[..n])
      invariant printed == MalformedLines(lines[..n])
    {
      var tweet := lines[n];
      assert lines[..n + 1][..n] == lines[..n];
      var idAndMessage := IdAndMessage(tweet);
      if idAndMessage.None? {
        printed := printed + [tweet];
      } else {
        var (id, message) := idAndMessage.value;
        docs := docs + [TweetDocument(id, message)];
      }
      n := n + 1;
    }
    assert lines[..n] == lines;
  }

  /** Every line either yields a document or is printed, never both. */
  lemma {:induction false} EveryLineAccounted(lines: seq<string>)
    ensures |TweetDocuments(lines)| + |MalformedLines(lines)| == |lines|
  {
    if lines != [] {
      EveryLineAccounted(lines[..|lines| - 1]);
    }
  }

  // ---------------------------------------------------------------------------
  // parseHashtags

  /** The hashtag-field text of a tweet split into words (the loop over tweetWords). */
  function HashtagText(words: seq<string>): string {
    if words == [] then ""
    else
      var word := words[|words| - 1];
      HashtagText(words[..|words| - 1]) + (if '#' in word then Without(word, '#') + " " else "")
  }

  /**
   * The loop that builds the hashtag text: words containing '#' are kept, each
   * with every '#' removed and followed by one space.
   */
  method CollectHashtags(tweetWords: seq<string>) returns (hashtags: string)
    ensures hashtags == HashtagText(tweetWords)
  {
    hashtags := "";
    for i := 0 to |tweetWords|
      invariant hashtags == HashtagText(tweetWords[..i])
    {
      assert tweetWords[..i + 1][..i] == tweetWords[..i];
      if '#' in tweetWords[i] {
        var tweetword := ReplaceAll(tweetWords[i], "#", "");
        ReplaceCharIsWithout(tweetWords[i], '#');
        hashtags := hashtags + tweetword + " ";
      }
    }
    assert tweetWords[..|tweetWords|] == tweetWords;
  }

  /** The words kept for the hashtag field, in order, with their '#' characters removed. */
  function KeptWords(words: seq<string>): seq<string> {
    if words == [] then []
    else (if '#' in words[0] then [Without(words[0], '#')] else []) + KeptWords(words[1..])
  }

  lemma {:induction false} HashtagTextFront(words: seq<string>)
    requires words != []
    ensures HashtagText(words) ==
      (if '#' in words[0] then Without(words[0], '#') + " " else "") + HashtagText(words[1..])
    decreases |words|
  {
    if |words| > 1 {
      var init := words[..|words| - 1];
      HashtagTextFront(init);
      assert init[1..] == words[1..][..|words[1..]| - 1];
      assert init[0] == words[0];
    }
  }

  /**
   * Split on spaces, the hashtag text gives back exactly the kept words, in
   * their original order, followed by the empty piece after the last space.
   */
  lemma {:induction false} HashtagTextSplitsIntoKeptWords(words: seq<string>)
    requires forall i :: 0 <= i < |words| ==> ' ' !in words[i]
    ensures SplitAll(HashtagText(words), ' ') == KeptWords(words) + [""]
    decreases |words|
  {
    if words != [] {
      var tail := words[1..];
      assert forall i :: 0 <= i < |tail| ==> tail[i] == words[i + 1];
      HashtagTextFront(words);
      HashtagTextSplitsIntoKeptWords(tail);
      assert ' ' !in words[0];
      KeptWordStep(words[0], HashtagText(tail), KeptWords(tail));
    }
  }

  /** One word in front of the hashtag text of the rest adds its kept form in front of the split. */
  lemma KeptWordStep(w: string, rest: string, kept: seq<string>)
    requires ' ' !in w && SplitAll(rest, ' ') == kept + [""]
    ensures SplitAll((if '#' in w then Without(w, '#') + " " else "") + rest, ' ') ==
      (if '#' in w then [Without(w, '#')] else []) + kept + [""]
  {
    if '#' in w {
      var stripped := Without(w, '#');
      assert ' ' !in stripped by {
        assert multiset(stripped)[' '] == multiset(w)[' '] == 0;
      }
      assert stripped + " " + rest == stripped + [' '] + rest;
      SplitAllPiece(stripped, rest, ' ');
    } else {
      assert "" + rest == rest;
    }
  }

  /** No '#' survives in the hashtag text. */
  lemma {:induction false} HashtagTextHasNoHash(words: seq<string>)
    ensures '#' !in HashtagText(words)
    decreases |words|
  {
    if words != [] {
      HashtagTextHasNoHash(words[..|words| - 1]);
    }
  }

  /** Words without '#' contribute nothing: a tweet without hashtags gets empty hashtag text. */
  lemma {:induction false} NoHashtagsGiveEmptyText(words: seq<string>)
    requires forall i :: 0 <= i < |words| ==> '#' !in words[i]
    ensures HashtagText(words) == ""
    decreases |words|
  {
    if words != [] {
      NoHashtagsGiveEmptyText(words[..|words| - 1]);
    }
  }

  /** The document parseHashtags adds for one line, if the line is well formed. */
  function HashtagDocumentOf(line: string): Option<HashtagDocument> {
    match IdAndMessage(line)
    case None => None
    case Some((id, message)) => Some(HashtagDocument(id, HashtagText(Split(message, ' '))))
  }

  /** The documents parseHashtags adds to the hashtag index, in file order. */
  function HashtagDocuments(lines: seq<string>): seq<HashtagDocument> {
    if lines == [] then []
    else
      var docs := HashtagDocuments(lines[..|lines| - 1]);
      match HashtagDocumentOf(lines[|lines| - 1])
      case None => docs
      case Some(doc) => docs + [doc]
  }

  /** parseHashtags: one hashtag document per well-formed line; every other line printed. */
  method ParseHashtags(lines: seq<string>) returns (docs: seq<HashtagDocument>, printed: seq<string>)
    ensures docs == HashtagDocuments(lines)
    ensures printed == MalformedLines(lines)
  {
    docs, printed := [], [];
    var n := 0;
    while n < |lines|
      invariant 0 <= n <= |lines|
      invariant docs == HashtagDocuments(lines[..n])
      invariant printed == MalformedLines(lines[..n])
    {
      var tweet := lines[n];
      assert lines[..n + 1][..n] == lines[..n];
      var idAndMessage := IdAndMessage(tweet);
      if idAndMessage.None? {
        printed := printed + [tweet];
      } else {
        var (id, message) := idAndMessage.value;
        var hashtags := CollectHashtags(Split(message, ' '));
        docs := docs + [HashtagDocument(id, hashtags)];
      }
      n := n + 1;
    }
    assert lines[..n] == lines;
  }

  /**
   * The two indexes receive documents for the same lines: the k-th hashtag
   * document carries the id of the k-th tweet document.
   */
  lemma {:induction false} SameDocumentIds(lines: seq<string>)
    ensures |HashtagDocuments(lines)| == |TweetDocuments(lines)|
    ensures forall k :: 0 <= k < |TweetDocuments(lines)| ==>
      HashtagDocuments(lines)[k].id == TweetDocuments(lines)[k].id
  {
    if lines != [] {
      SameDocumentIds(lines[..|lines| - 1]);
    }
  }

  /** A well-formed tweet without any '#' still yields a hashtag document, with empty text. */
  lemma TweetWithoutHashtags(line: string)
    requires IdAndMessage(line).Some?
    requires '#' !in IdAndMessage(line).value.1
    ensures HashtagDocumentOf(line) == Some(HashtagDocument(IdAndMessage(line).value.0, ""))
  {
    var message := IdAndMessage(line).value.1;
    var words := Split(message, ' ');
    forall i | 0 <= i < |words| ensures '#' !in words[i] {
      PieceCharsFromString(message, ' ', '#');
      if ' ' in message {
        assert words[i] == SplitAll(message, ' ')[i];
      }
    }
    NoHashtagsGiveEmptyText(words);
  }

  /** A character that is not in `s` is in none of its pieces. */
  lemma {:induction false} PieceCharsFromString(s: string, d: char, c: char)
    requires c !in s
    ensures forall i :: 0 <= i < |SplitAll(s, d)| ==> c !in SplitAll(s, d)[i]
    decreases |s|
  {
    if |s| > 0 {
      PieceCharsFromString(s[1..], d, c);
      assert s == [s[0]] + s[1..];
    }
  }
}
