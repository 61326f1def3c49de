/** What the scorer promises, stated against reference definitions that are
    independent of the way `Scan` is computed: the score formula, its
    bounds, one reason per fired rule in table order, the sender rule, the
    tier bands, the refusal case, case-insensitivity and the fallback text. */
module ScannerProperties {
  import opened Text
  import opened Scanner

  /** Reference definition: the entries of `table` that occur in `content`,
      kept in table order (defined from the front, unlike `TableScore`). */
  function Matched(content: string, table: seq<string>): (r: seq<string>)
    ensures |r| <= |table|
    ensures forall e :: e in r <==> e in table && Contains(content, e)
  {
    if table == [] then []
    else (if Contains(content, table[0]) then [table[0]] else []) + Matched(content, table[1..])
  }

  /** Each entry is listed at most as often as the table holds it. */
  lemma {:induction false} MatchedIsSubmultiset(content: string, table: seq<string>)
    ensures multiset(Matched(content, table)) <= multiset(table)
  {
    if table != [] {
      assert table == [table[0]] + table[1..];
      MatchedIsSubmultiset(content, table[1..]);
    }
  }

  /** No entry appears twice in the table. */
  predicate Distinct(table: seq<string>)
  {
    forall i, j :: 0 <= i < j < |table| ==> table[i] != table[j]
  }

  /** The entries of `table` that occur in `content`, as a set. */
  function Found(content: string, table: seq<string>): set<string>
  {
    set e | e in table && Contains(content, e)
  }

  /** In a table without repeats, the matches are as many as the distinct entries found. */
  lemma {:induction false} MatchedCountsFound(content: string, table: seq<string>)
    requires Distinct(table)
    ensures |Matched(content, table)| == |Found(content, table)|
  {
    if table == [] {
      assert Found(content, table) == {};
    } else {
      var rest := table[1..];
      assert Distinct(rest) by {
        forall i, j | 0 <= i < j < |rest|
          ensures rest[i] != rest[j]
        {
          assert rest[i] == table[i + 1] && rest[j] == table[j + 1];
        }
      }
      MatchedCountsFound(content, rest);
      assert table[0] !in rest by {
        forall j | 0 <= j < |rest|
          ensures rest[j] != table[0]
        {
          assert rest[j] == table[j + 1];
        }
      }
      assert forall e :: e in table <==> e == table[0] || e in rest;
      if Contains(content, table[0]) {
        assert Found(content, table) == Found(content, rest) + {table[0]};
      } else {
        assert Found(content, table) == Found(content, rest);
      }
    }
  }

  /** Neither table repeats an entry. */
  lemma TablesAreDistinct()
    ensures Distinct(Keywords) && Distinct(LinkPatterns)
  {
  }

  /** One reason line per entry, in the order given. */
  function Rendered(prefix: string, entries: seq<string>): seq<string>
  {
    seq(|entries|, i requires 0 <= i < |entries| => Reason(prefix, entries[i]))
  }

  /** Every string the scorer looks for. */
  const Watched: seq<string> := Keywords + LinkPatterns + ["from:", ".com", "paypa1"]

  lemma {:induction false} MatchedSnoc(content: string, table: seq<string>, x: string)
    ensures Matched(content, table + [x]) == Matched(content, table) + (if Contains(content, x) then [x] else [])
    decreases |table|
  {
    if table == [] {
      assert [x][1..] == [];
    } else {
      assert (table + [x])[1..] == table[1..] + [x];
      MatchedSnoc(content, table[1..], x);
    }
  }

  /** Walking a table entry by entry earns two points and one reason line per
      entry that occurs, and the lines follow the table's order. */
  lemma {:induction false} TableAgreesWithMatched(content: string, table: seq<string>, prefix: string)
    ensures TableScore(content, table) == EntryPoints * |Matched(content, table)|
    ensures TableReasons(content, table, prefix) == Rendered(prefix, Matched(content, table))
  {
    if table != [] {
      var n := |table| - 1;
      TableAgreesWithMatched(content, table[..n], prefix);
      assert table == table[..n] + [table[n]];
      MatchedSnoc(content, table[..n], table[n]);
    }
  }

  /** Texts in which the same entries occur give the same matches. */
  lemma {:induction false} MatchedDependsOnlyOnOccurrence(a: string, b: string, table: seq<string>)
    requires forall e :: e in table ==> (Contains(a, e) <==> Contains(b, e))
    ensures Matched(a, table) == Matched(b, table)
  {
    if table != [] {
      assert table[0] in table;
      assert forall e :: e in table[1..] ==> e in table;
      MatchedDependsOnlyOnOccurrence(a, b, table[1..]);
    }
  }

  /** The score is two points per phrase found, two per link pattern found
      and three if the sender rule fires. */
  lemma ScoreFormula(text: string)
    requires text != []
    ensures var c := Lower(text);
      Scan(text).score
      == 2 * |Matched(c, Keywords)| + 2 * |Matched(c, LinkPatterns)| + (if SenderRule(c) then 3 else 0)
  {
    TableAgreesWithMatched(Lower(text), Keywords, PhrasePrefix);
    TableAgreesWithMatched(Lower(text), LinkPatterns, LinkPrefix);
  }

  /** The score counts each phrase found and each link pattern found once:
      two points per distinct entry that occurs. */
  lemma ScoreCountsFound(text: string)
    requires text != []
    ensures var c := Lower(text);
      Scan(text).score
      == 2 * |Found(c, Keywords)| + 2 * |Found(c, LinkPatterns)| + (if SenderRule(c) then 3 else 0)
  {
    ScoreFormula(text);
    TablesAreDistinct();
    MatchedCountsFound(Lower(text), Keywords);
    MatchedCountsFound(Lower(text), LinkPatterns);
  }

  /** The score lies between 0 and 2 * 7 + 2 * 7 + 3 = 31. */
  lemma ScoreBounds(text: string)
    requires text != []
    ensures 0 <= Scan(text).score <= 31
  {
    ScoreFormula(text);
  }

  /** The reason lines are the found phrases in table order, then the found
      link patterns in table order, then the sender line; where in the text
      the matches sit plays no part. */
  lemma ReasonsInRuleOrder(text: string)
    requires text != []
    ensures var c := Lower(text);
      Scan(text).reasons
      == Rendered(PhrasePrefix, Matched(c, Keywords)) + Rendered(LinkPrefix, Matched(c, LinkPatterns))
         + (if SenderRule(c) then [SenderReason] else [])
  {
    TableAgreesWithMatched(Lower(text), Keywords, PhrasePrefix);
    TableAgreesWithMatched(Lower(text), LinkPatterns, LinkPrefix);
  }

  /** Each rule that fires appends exactly one line, so the line count is the
      number of rules fired, and the score is twice that count plus one when
      the three-point sender rule is among them. */
  lemma OneReasonPerRule(text: string)
    requires text != []
    ensures var c := Lower(text);
      |Scan(text).reasons|
      == |Matched(c, Keywords)| + |Matched(c, LinkPatterns)| + (if SenderRule(c) then 1 else 0)
    ensures Scan(text).score == 2 * |Scan(text).reasons| + (if SenderRule(Lower(text)) then 1 else 0)
  {
    ScoreFormula(text);
    ReasonsInRuleOrder(text);
  }

  /** Phrase and link reason lines never read as the sender line. */
  lemma SenderReasonNotRendered(prefix: string, entries: seq<string>)
    requires prefix == PhrasePrefix || prefix == LinkPrefix
    ensures SenderReason !in Rendered(prefix, entries)
  {
    assert SenderReason[13] == 's' && prefix[13] != 's';
    forall j | 0 <= j < |entries|
      ensures Rendered(prefix, entries)[j] != SenderReason
    {
      assert Rendered(prefix, entries)[j][13] == prefix[13];
    }
  }

  /** The sender line is reported exactly when the text has "from:" and
      either lacks ".com" or has "paypa1". */
  lemma SenderRuleIff(text: string)
    requires text != []
    ensures var c := Lower(text);
      SenderReason in Scan(text).reasons
      <==> Contains(c, "from:") && (!Contains(c, ".com") || Contains(c, "paypa1"))
  {
    var c := Lower(text);
    ReasonsInRuleOrder(text);
    SenderReasonNotRendered(PhrasePrefix, Matched(c, Keywords));
    SenderReasonNotRendered(LinkPrefix, Matched(c, LinkPatterns));
    var entryLines := Rendered(PhrasePrefix, Matched(c, Keywords)) + Rendered(LinkPrefix, Matched(c, LinkPatterns));
    assert SenderReason !in entryLines;
  }

  /** The score is odd exactly when the three-point sender rule fired. */
  lemma OddScoreIffSender(text: string)
    requires text != []
    ensures Scan(text).score % 2 == 1 <==> SenderRule(Lower(text))
  {
    OneReasonPerRule(text);
    Parity(|Scan(text).reasons|, if SenderRule(Lower(text)) then 1 else 0);
  }

  lemma Parity(n: int, bonus: int)
    requires bonus == 0 || bonus == 1
    ensures (2 * n + bonus) % 2 == bonus
  {
  }

  /** A higher score never gives a lower tier. */
  lemma TierMonotone(lo: int, hi: int)
    requires lo <= hi
    ensures Rank(TierOf(lo)) <= Rank(TierOf(hi))
  {
  }

  /** The band edges: 3 is LOW, 4 and 7 are MEDIUM, 8 is HIGH. */
  lemma TierBoundaries()
    ensures TierOf(3) == Low && TierOf(4) == Medium && TierOf(7) == Medium && TierOf(8) == High
  {
  }

  lemma {:induction false} NoneOccurNoneMatched(content: string, table: seq<string>)
    requires forall e :: e in table ==> !Contains(content, e)
    ensures Matched(content, table) == []
  {
    if table != [] {
      assert table[0] in table;
      assert forall e :: e in table[1..] ==> e in table;
      NoneOccurNoneMatched(content, table[1..]);
    }
  }

  /** A text in which no entry occurs and the sender rule does not fire
      scores 0, is LOW and has no reason lines. */
  lemma NothingFoundIsSafe(text: string)
    requires text != []
    requires forall e :: e in Keywords + LinkPatterns ==> !Contains(Lower(text), e)
    requires !SenderRule(Lower(text))
    ensures Scan(text) == Report(0, [], Low)
  {
    var c := Lower(text);
    assert forall e :: e in Keywords ==> e in Keywords + LinkPatterns;
    assert forall e :: e in LinkPatterns ==> e in Keywords + LinkPatterns;
    NoneOccurNoneMatched(c, Keywords);
    NoneOccurNoneMatched(c, LinkPatterns);
    ScoreFormula(text);
    ReasonsInRuleOrder(text);
  }

  /** A string cannot occur in a text that lacks its first character. */
  lemma FirstCharAbsent(text: string, k: string)
    requires |k| > 0
    requires forall i :: 0 <= i < |text| ==> text[i] != k[0]
    ensures !Contains(text, k)
  {
    ContainsIffOccurs(text, k);
  }

  /** Characters treated as blank in the next lemma. */
  predicate IsBlank(ch: char)
  {
    ch == ' ' || ch == '\t' || ch == '\n' || ch == '\r'
  }

  /** A text made only of blanks is not refused (there is no trimming): it is
      scanned and found safe. */
  lemma BlankTextIsScanned(text: string)
    requires text != []
    requires forall i :: 0 <= i < |text| ==> IsBlank(text[i])
    ensures Scan(text) == Report(0, [], Low)
  {
    var c := Lower(text);
    assert forall i :: 0 <= i < |c| ==> IsBlank(c[i]);
    forall e | e in Keywords + LinkPatterns + ["from:"]
      ensures !Contains(c, e)
    {
      assert |e| > 0 && !IsBlank(e[0]);
      FirstCharAbsent(c, e);
    }
    assert "from:" in Keywords + LinkPatterns + ["from:"];
    NothingFoundIsSafe(text);
  }

  lemma FirstPhrasesAreLowercase()
    ensures IsLowercase("verify your account") && IsLowercase("urgent") && IsLowercase("click here")
  {
  }

  lemma LastPhrasesAreLowercase()
    ensures IsLowercase("password expired") && IsLowercase("update your information")
    ensures IsLowercase("suspended") && IsLowercase("login immediately")
  {
  }

  lemma LinkPatternsAreLowercase()
    ensures IsLowercase("http://") && IsLowercase("https://") && IsLowercase("bit.ly") && IsLowercase(".ru")
    ensures IsLowercase(".tk") && IsLowercase(".zip") && IsLowercase(".exe")
  {
  }

  lemma SenderStringsAreLowercase()
    ensures IsLowercase("from:") && IsLowercase(".com") && IsLowercase("paypa1")
  {
  }

  /** Every table entry and every sender-rule string is already lowercase. */
  lemma WatchedAreLowercase()
    ensures forall e :: e in Watched ==> IsLowercase(e)
  {
    FirstPhrasesAreLowercase();
    LastPhrasesAreLowercase();
    LinkPatternsAreLowercase();
    SenderStringsAreLowercase();
  }

  /** A table entry fires exactly when it occurs in the text in any mixture
      of upper and lower case. */
  lemma EntryFiresIgnoringCase(text: string, e: string)
    requires e in Watched
    ensures Contains(Lower(text), e) <==> exists i :: OccursIgnoringCase(text, e, i)
  {
    WatchedAreLowercase();
    ContainsLowerIff(text, e);
  }

  /** Texts that agree once lowercased get the same outcome. */
  lemma CaseInsensitive(a: string, b: string)
    requires Lower(a) == Lower(b)
    ensures Scan(a) == Scan(b)
  {
    assert |a| == |b|;
  }

  /** Lowercasing the text first changes nothing. */
  lemma ScanOfLowered(text: string)
    ensures Scan(Lower(text)) == Scan(text)
  {
    LowerFixesLowercase(text);
    LowerFixesLowercase(Lower(text));
    CaseInsensitive(Lower(text), text);
  }

  /** Only which rules fire decides the outcome: where, how often and in
      what order the matches sit in the text plays no part. */
  lemma DependsOnlyOnFiredRules(a: string, b: string)
    requires a != [] && b != []
    requires forall e :: e in Keywords ==> (Contains(Lower(a), e) <==> Contains(Lower(b), e))
    requires forall e :: e in LinkPatterns ==> (Contains(Lower(a), e) <==> Contains(Lower(b), e))
    requires SenderRule(Lower(a)) <==> SenderRule(Lower(b))
    ensures Scan(a) == Scan(b)
  {
    MatchedDependsOnlyOnOccurrence(Lower(a), Lower(b), Keywords);
    MatchedDependsOnlyOnOccurrence(Lower(a), Lower(b), LinkPatterns);
    ScoreFormula(a);
    ScoreFormula(b);
    ReasonsInRuleOrder(a);
    ReasonsInRuleOrder(b);
  }

  /** Every reason line ends in a line break. */
  lemma ReasonLinesEndInBreak(text: string)
    requires text != []
    ensures forall line :: line in Scan(text).reasons ==> |line| > 0 && line[|line| - 1] == '\n'
  {
    ReasonsInRuleOrder(text);
  }

  lemma {:induction false} ConcatEndsLikeLastLine(lines: seq<string>)
    requires lines != [] && |lines[|lines| - 1]| > 0
    ensures var joined := Concat(lines); var last := lines[|lines| - 1];
      |joined| > 0 && joined[|joined| - 1] == last[|last| - 1]
  {
  }

  /** The "Reasons:" block falls back to "No suspicious indicators found."
      exactly when no rule fired; otherwise it is the joined reason lines. */
  lemma FallbackIffNoReasons(text: string)
    requires text != []
    ensures ReasonsBlock(Scan(text).reasons) == NoIndicators <==> Scan(text).reasons == []
    ensures Scan(text).reasons != [] ==> ReasonsBlock(Scan(text).reasons) == Concat(Scan(text).reasons)
  {
    var rs := Scan(text).reasons;
    if rs != [] {
      ReasonLinesEndInBreak(text);
      assert rs[|rs| - 1] in rs;
      ConcatEndsLikeLastLine(rs);
      assert NoIndicators[|NoIndicators| - 1] == '.';
    }
  }
}
