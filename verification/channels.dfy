/**
  The two provider grammars of trader/signal.py, `BFP.parse` and
  `MVIP.parse`, and the `CHANNELS` registry. Each parser collapses blank
  lines, splits the message into lines, checks a few structural
  assertions and reads fixed line and token positions. Every failed
  `assert`, out-of-range index and unparseable number becomes the
  corresponding `Failure`.
 */
module Channels {
  import opened Wrappers
  import opened Text
  import opened Decimal
  import opened Signals

  // ---------------------------------------------------------------------
  // Shared steps

  /** `text.replace("\n\n", "\n")`: a single pass, so "\n\n\n" becomes "\n\n". */
  function CollapseBlankLines(text: string): string {
    Replace(text, "\n\n", "\n")
  }

  /** The lines the new-layout parsers index into. */
  function Lines(text: string): seq<string> {
    Split(CollapseBlankLines(text), "\n")
  }

  /**
    Rejoining the lines gives the collapsed text back, and no line holds a
    newline: the split loses nothing and leaves no line break behind.
   */
  lemma LinesRejoin(text: string)
    ensures |Lines(text)| >= 1
    ensures Join(Lines(text), "\n") == CollapseBlankLines(text)
    ensures forall k :: 0 <= k < |Lines(text)| ==> !HasChar(Lines(text)[k], '\n')
  {
    JoinSplit(CollapseBlankLines(text), "\n");
    SplitPiecesAvoidSeparator(CollapseBlankLines(text), "\n");
  }

  /** `line.split(" ")` */
  function Tokens(line: string): seq<string> {
    Split(line, " ")
  }

  /** `line.split(" ")[-1]` */
  function LastToken(line: string): string {
    Last(Tokens(line))
  }

  /**
    The coin as the source computes it: `line.split("/")[0].split("#")[-1]`,
    the text before the first '/' and after the last '#' that precedes it.
   */
  function CoinAsWritten(line: string): (coin: string)
    ensures !HasChar(coin, '/') && !HasChar(coin, '#')
  {
    var beforeSlash := Split(line, "/")[0];
    SplitPiecesAvoidSeparator(line, "/");
    SplitPiecesWithin(beforeSlash, "#", '/');
    SplitPiecesAvoidSeparator(beforeSlash, "#");
    Last(Split(beforeSlash, "#"))
  }

  /**
    The coin as the providers' layout needs it: the text after the last '#'
    up to the next '/'. It differs from `CoinAsWritten` when a '/' comes
    before the '#', as in "Long/Buy #BLZ/USDT".
   */
  function CoinOf(line: string): (coin: string)
    ensures !HasChar(coin, '/') && !HasChar(coin, '#')
  {
    var afterHash := Last(Split(line, "#"));
    SplitPiecesAvoidSeparator(line, "#");
    SplitPiecesWithin(afterHash, "/", '#');
    SplitPiecesAvoidSeparator(afterHash, "/");
    Split(afterHash, "/")[0]
  }

  /**
    On the providers' "direction/side #COIN/QUOTE" line the source's
    expression stops at the first '/', which comes before the '#', and so
    returns the direction.
   */
  lemma CoinAsWrittenReadsDirection(direction: string, side: string, coin: string, rest: string)
    requires !HasChar(direction, '/') && !HasChar(direction, '#')
    ensures CoinAsWritten(direction + "/" + side + " #" + coin + "/" + rest) == direction
  {
    var tail := side + " #" + coin + "/" + rest;
    assert direction + "/" + side + " #" + coin + "/" + rest == direction + "/" + tail;
    SplitAfterPiece(direction, "/", tail);
    SplitNoSeparator(direction, "#");
  }

  /** The coin line of a BFP message in the layout of trader/test_signal.py. */
  lemma CoinAsWrittenOnBfpLine(line: string, direction: string, coin: string)
    requires direction == "Long" && coin == "BLZ"
    requires line == direction + "/Buy #" + coin + "/USDT"
    ensures CoinAsWritten(line) == direction
    ensures CoinOf(line) == coin
  {
    assert line == direction + "/" + "Buy" + " #" + coin + "/" + "USDT";
    CoinAsWrittenReadsDirection(direction, "Buy", coin, "USDT");
    assert line == direction + "/Buy " + "#" + coin + "/" + "USDT";
    CoinOfReads(direction + "/Buy ", coin, "USDT");
  }

  /** `CoinOf` returns the text between the last '#' and the '/' after it. */
  lemma CoinOfReads(prefix: string, coin: string, rest: string)
    requires !HasChar(coin, '/') && !HasChar(coin, '#') && !HasChar(rest, '#')
    ensures CoinOf(prefix + "#" + coin + "/" + rest) == coin
  {
    var afterHash := coin + "/" + rest;
    assert prefix + "#" + coin + "/" + rest == prefix + "#" + afterHash;
    SplitAround(prefix, "#", afterHash);
    assert !HasChar(afterHash, '#') by {
      HasCharConcat(coin, "/", '#');
      HasCharConcat(coin + "/", rest, '#');
    }
    SplitNoSeparator(afterHash, "#");
    SplitAfterPiece(coin, "/", rest);
  }

  /** When no '/' comes before the '#', the source's expression and `CoinOf` agree. */
  lemma CoinVersionsAgree(prefix: string, coin: string, rest: string)
    requires !HasChar(prefix, '/')
    requires !HasChar(coin, '/') && !HasChar(coin, '#') && !HasChar(rest, '#')
    ensures CoinAsWritten(prefix + "#" + coin + "/" + rest) == coin
    ensures CoinOf(prefix + "#" + coin + "/" + rest) == coin
  {
    CoinOfReads(prefix, coin, rest);
    var head := prefix + "#" + coin;
    assert !HasChar(head, '/') by {
      HasCharConcat(prefix, "#", '/');
      HasCharConcat(prefix + "#", coin, '/');
    }
    SplitAfterPiece(head, "/", rest);
    SplitAround(prefix, "#", coin);
    SplitNoSeparator(coin, "#");
  }

  /** `float(...)` over a list of tokens, left to right, stopping at the first failure. */
  function Numbers(tokens: seq<string>): (r: Result<seq<real>>)
    ensures r.Success? <==> forall i :: 0 <= i < |tokens| ==> ParseFloat(tokens[i]).Some?
    ensures r.Success? ==> (|r.value| == |tokens|
      && forall i :: 0 <= i < |tokens| ==> ParseFloat(tokens[i]) == Some(r.value[i]))
    ensures r.Failure? ==> r.error == ValueError
  {
    if |tokens| == 0 then Success([])
    else
      var head :- Number(ParseFloat(tokens[0]));
      var tail :- Numbers(tokens[1..]);
      assert forall i :: 1 <= i < |tokens| ==> tokens[i] == tokens[1..][i - 1];
      Success([head] + tail)
  }

  // ---------------------------------------------------------------------
  // BFP

  /**
    Which reading of the coin line a parser applies: the source's own
    expression (`CoinAsWritten`) or the corrected one (`CoinOf`). The
    parsers are modelled with either; the rest of the model reads the
    coin the corrected way.
   */
  datatype CoinRule = AsWritten | Corrected

  function ReadCoin(rule: CoinRule, line: string): (coin: string)
    ensures !HasChar(coin, '/') && !HasChar(coin, '#')
  {
    match rule
    case AsWritten => CoinAsWritten(line)
    case Corrected => CoinOf(line)
  }

  /** `BFP.chan_id` */
  const BfpChanId: int := -1001418856446

  /** `fraction=0.04` passed by both BFP parsers. */
  const BfpFraction: real := 0.04

  /** The token position of the `i`-th target. */
  function Slot(i: nat): nat {
    2 * i + 1
  }

  /** The five target tokens of a targets line, index errors first as in the list display. */
  function TargetTokens(line: string): (r: Result<seq<string>>)
    ensures r.Success? <==> |Tokens(line)| >= 10
    ensures r.Success? ==> (|r.value| == 5
      && forall i :: 0 <= i < 5 ==> r.value[i] == Tokens(line)[Slot(i)])
    ensures r.Failure? ==> r.error == IndexError
  {
    var t := Tokens(line);
    var t1 :- At(t, 1);
    var t3 :- At(t, 3);
    var t5 :- At(t, 5);
    var t7 :- At(t, 7);
    var t9 :- At(t, 9);
    Success([t1, t3, t5, t7, t9])
  }

  /** The targets line of a BFP message: five numbers at token positions 1, 3, 5, 7 and 9. */
  function BfpTargets(line: string): (r: Result<seq<real>>)
    ensures r.Success? <==> (|Tokens(line)| >= 10
      && forall i :: 0 <= i < 5 ==> ParseFloat(Tokens(line)[Slot(i)]).Some?)
    ensures r.Success? ==> (|r.value| == 5
      && forall i :: 0 <= i < 5 ==> ParseFloat(Tokens(line)[Slot(i)]) == Some(r.value[i]))
  {
    var toks :- TargetTokens(line);
    Numbers(toks)
  }

  /** The header lines both BFP layouts assert on. */
  predicate BfpHeader(lines: seq<string>) {
    && |lines| >= 2
    && EndsWith(lines[0], "Signal")
    && EndsWith(lines[1], "ENTRY POINT")
  }

  /** The line numbers a BFP parser reads the coin, entry, targets and stop-loss from. */
  datatype Positions = Positions(coin: nat, entry: nat, targets: nat, sl: nat)

  /** The layout without blank lines, once they have been collapsed. */
  const Compact: Positions := Positions(2, 3, 4, 6)

  /** Enough lines, and enough tokens on the targets line, for every index the parser reads. */
  predicate BfpShape(lines: seq<string>, at: Positions) {
    && at.coin < |lines| && at.entry < |lines| && at.targets < |lines| && at.sl < |lines|
    && |Tokens(lines[at.targets])| >= 10
  }

  /** The entry, the five targets and the stop-loss all parse as numbers. */
  predicate BfpNumeric(lines: seq<string>, at: Positions)
    requires BfpShape(lines, at)
  {
    && ParseFloat(LastToken(lines[at.entry])).Some?
    && (forall i :: 0 <= i < 5 ==> ParseFloat(Tokens(lines[at.targets])[Slot(i)]).Some?)
    && ParseFloat(LastToken(lines[at.sl])).Some?
  }

  /** What a successful BFP parse reads from the lines. */
  predicate BfpReads(lines: seq<string>, at: Positions, rule: CoinRule, s: Signal)
    requires BfpShape(lines, at)
  {
    && s.coin == ReadCoin(rule, lines[at.coin])
    && ParseFloat(LastToken(lines[at.entry])) == Some(s.entry)
    && |s.targets| == 5
    && (forall i :: 0 <= i < 5 ==> ParseFloat(Tokens(lines[at.targets])[Slot(i)]) == Some(s.targets[i]))
    && ParseFloat(LastToken(lines[at.sl])) == Some(s.sl)
    && s.fraction == BfpFraction && s.leverage == DefaultLeverage && s.waitEntry
  }

  /** Two parses that read the same four lines read the same signal. */
  lemma BfpReadsAgree(rule: CoinRule, lines1: seq<string>, at1: Positions, s1: Signal,
                      lines2: seq<string>, at2: Positions, s2: Signal)
    requires BfpShape(lines1, at1) && BfpReads(lines1, at1, rule, s1)
    requires BfpShape(lines2, at2) && BfpReads(lines2, at2, rule, s2)
    requires lines1[at1.coin] == lines2[at2.coin] && lines1[at1.entry] == lines2[at2.entry]
    requires lines1[at1.targets] == lines2[at2.targets] && lines1[at1.sl] == lines2[at2.sl]
    ensures s1 == s2
  {
    assert s1.targets == s2.targets by {
      forall i | 0 <= i < 5 ensures s1.targets[i] == s2.targets[i] {
        assert ParseFloat(Tokens(lines1[at1.targets])[Slot(i)]) == Some(s1.targets[i]);
        assert ParseFloat(Tokens(lines2[at2.targets])[Slot(i)]) == Some(s2.targets[i]);
      }
    }
  }

  /** The body of a BFP message, once the header assertions have passed. */
  function BfpBody(lines: seq<string>, at: Positions, rule: CoinRule): (r: Result<Signal>)
    ensures r.Success? <==> BfpShape(lines, at) && BfpNumeric(lines, at)
    ensures r.Success? ==> BfpShape(lines, at) && BfpReads(lines, at, rule, r.value)
    ensures r.Failure? ==> r.error != AssertionError
  {
    var lc :- At(lines, at.coin);
    var coin := ReadCoin(rule, lc);
    var le :- At(lines, at.entry);
    var entry :- Number(ParseFloat(LastToken(le)));
    var lt :- At(lines, at.targets);
    var targets :- BfpTargets(lt);
    var ls :- At(lines, at.sl);
    var sl :- Number(ParseFloat(LastToken(ls)));
    Success(Signal(coin, entry, sl, targets, BfpFraction, DefaultLeverage, true))
  }

  /**
    A BFP parser over already split lines: the two header assertions, then
    the body at the given positions. Every failure after the header is an
    index or value error.
   */
  function BfpParseLines(lines: seq<string>, at: Positions, rule: CoinRule): (r: Result<Signal>)
    requires |lines| > 0
    ensures !BfpHeader(lines) ==> r.Failure?
    ensures !EndsWith(lines[0], "Signal") ==> r == Failure(AssertionError)
    ensures EndsWith(lines[0], "Signal") && |lines| < 2 ==> r == Failure(IndexError)
    ensures EndsWith(lines[0], "Signal") && |lines| >= 2 && !EndsWith(lines[1], "ENTRY POINT") ==>
      r == Failure(AssertionError)
    ensures r.Success? <==> BfpHeader(lines) && BfpShape(lines, at) && BfpNumeric(lines, at)
    ensures r.Success? ==> BfpShape(lines, at) && BfpReads(lines, at, rule, r.value)
    ensures r.Success? ==> !HasChar(r.value.coin, '/') && !HasChar(r.value.coin, '#')
    ensures BfpHeader(lines) && r.Failure? ==> r.error != AssertionError
  {
    var _ :- Check(EndsWith(lines[0], "Signal"));
    var l1 :- At(lines, 1);
    var _ :- Check(EndsWith(l1, "ENTRY POINT"));
    BfpBody(lines, at, rule)
  }

  /** `BFP.parse(text)` (trader/signal.py), with the coin read by the given rule. */
  function ParseBfp(text: string, rule: CoinRule): (r: Result<Signal>)
    ensures r.Success? <==> BfpHeader(Lines(text)) && BfpShape(Lines(text), Compact) && BfpNumeric(Lines(text), Compact)
    ensures r.Success? ==> BfpShape(Lines(text), Compact) && BfpReads(Lines(text), Compact, rule, r.value)
    ensures !EndsWith(Lines(text)[0], "Signal") ==> r == Failure(AssertionError)
    ensures EndsWith(Lines(text)[0], "Signal") && |Lines(text)| < 2 ==> r == Failure(IndexError)
    ensures EndsWith(Lines(text)[0], "Signal") && |Lines(text)| >= 2 && !EndsWith(Lines(text)[1], "ENTRY POINT") ==>
      r == Failure(AssertionError)
  {
    BfpParseLines(Lines(text), Compact, rule)
  }

  /**
    The two coin readings give parses that fail together, with the same
    error, and that differ at most in the coin.
   */
  lemma BfpRulesDiffer(lines: seq<string>, at: Positions)
    requires |lines| > 0
    ensures var w, c := BfpParseLines(lines, at, AsWritten), BfpParseLines(lines, at, Corrected);
      && (w.Success? <==> c.Success?)
      && (w.Failure? ==> w == c)
      && (w.Success? ==> w.value == c.value.(coin := CoinAsWritten(lines[at.coin])))
  {
    var w, c := BfpParseLines(lines, at, AsWritten), BfpParseLines(lines, at, Corrected);
    if w.Success? {
      assert w.value.targets == c.value.targets by {
        forall i | 0 <= i < 5 ensures w.value.targets[i] == c.value.targets[i] {
          assert ParseFloat(Tokens(lines[at.targets])[Slot(i)]) == Some(w.value.targets[i]);
          assert ParseFloat(Tokens(lines[at.targets])[Slot(i)]) == Some(c.value.targets[i]);
        }
      }
    }
  }

  // ---------------------------------------------------------------------
  // MVIP

  /** `MVIP.chan_id` */
  const MvipChanId: int := -1001196181927

  /** `lines[lo:hi]`: Python slices clamp to the list. */
  function Slice<T>(xs: seq<T>, lo: nat, hi: nat): (r: seq<T>)
    requires lo <= hi
    ensures |r| == (if hi <= |xs| then hi - lo else if lo <= |xs| then |xs| - lo else 0)
    ensures forall i :: 0 <= i < |r| ==> r[i] == xs[lo + i]
  {
    if |xs| <= lo then [] else if |xs| <= hi then xs[lo..] else xs[lo..hi]
  }

  /** The last token of every line. */
  function LastTokens(ls: seq<string>): (r: seq<string>)
    ensures |r| == |ls| && forall i :: 0 <= i < |ls| ==> r[i] == LastToken(ls[i])
  {
    if |ls| == 0 then [] else [LastToken(ls[0])] + LastTokens(ls[1..])
  }

  /** `map(lambda l: float(l.split(" ")[-1]), lines[4:7])` */
  function MvipTargets(lines: seq<string>): (r: Result<seq<real>>)
    ensures |lines| >= 7 ==>
      (r.Success? <==> forall i :: 4 <= i < 7 ==> ParseFloat(LastToken(lines[i])).Some?)
    ensures |lines| >= 7 && r.Success? ==> (|r.value| == 3
      && forall i :: 0 <= i < 3 ==> ParseFloat(LastToken(lines[4 + i])) == Some(r.value[i]))
    ensures r.Failure? ==> r.error == ValueError
  {
    MvipTargetsReadsLines(lines, LastTokens(Slice(lines, 4, 7)));
    Numbers(LastTokens(Slice(lines, 4, 7)))
  }

  /** The tokens `MvipTargets` parses are the last tokens of lines 4 to 6, so it reads those lines. */
  lemma MvipTargetsReadsLines(lines: seq<string>, ts: seq<string>)
    requires ts == LastTokens(Slice(lines, 4, 7))
    ensures |lines| >= 7 ==>
      (Numbers(ts).Success? <==> forall i :: 4 <= i < 7 ==> ParseFloat(LastToken(lines[i])).Some?)
    ensures |lines| >= 7 && Numbers(ts).Success? ==> (|Numbers(ts).value| == 3
      && forall i :: 0 <= i < 3 ==> ParseFloat(LastToken(lines[4 + i])) == Some(Numbers(ts).value[i]))
  {
    if |lines| >= 7 {
      assert |ts| == 3;
      assert forall i :: 4 <= i < 7 ==> ts[i - 4] == LastToken(lines[i]);
    }
  }

  /** Structure the MVIP layout demands of the collapsed lines. */
  predicate MvipLayout(lines: seq<string>) {
    && |lines| >= 10
    && Contains(lines[0], "USDT")
    && Contains(lines[1], "Entry Zone")
  }

  /** The entry, the three targets and the stop-loss all parse as numbers. */
  predicate MvipNumeric(lines: seq<string>)
    requires |lines| >= 10
  {
    && ParseFloat(Last(Split(lines[2], " - "))).Some?
    && (forall i :: 4 <= i < 7 ==> ParseFloat(LastToken(lines[i])).Some?)
    && ParseFloat(LastToken(lines[9])).Some?
  }

  /** What a successful MVIP parse reads from the lines. */
  predicate MvipReads(lines: seq<string>, rule: CoinRule, s: Signal)
    requires |lines| >= 10
  {
    && s.coin == ReadCoin(rule, lines[0])
    && ParseFloat(Last(Split(lines[2], " - "))) == Some(s.entry)
    && |s.targets| == 3
    && (forall i :: 0 <= i < 3 ==> ParseFloat(LastToken(lines[4 + i])) == Some(s.targets[i]))
    && ParseFloat(LastToken(lines[9])) == Some(s.sl)
    && s.fraction == DefaultFraction && s.leverage == DefaultLeverage && !s.waitEntry
  }

  /** `MVIP.parse(text)` (trader/signal.py), with the coin read by the given rule. */
  function ParseMvip(text: string, rule: CoinRule): (r: Result<Signal>)
    ensures !Contains(text, "Leverage") ==> r == Failure(AssertionError)
    ensures Contains(text, "Leverage") && !Contains(Lines(text)[0], "USDT") ==> r == Failure(AssertionError)
    ensures Contains(text, "Leverage") && Contains(Lines(text)[0], "USDT") && |Lines(text)| < 2 ==>
      r == Failure(IndexError)
    ensures Contains(text, "Leverage") && Contains(Lines(text)[0], "USDT") && |Lines(text)| >= 2 ==>
      (!Contains(Lines(text)[1], "Entry Zone") ==> r == Failure(AssertionError))
    ensures Contains(text, "Leverage") && Contains(Lines(text)[0], "USDT") && |Lines(text)| >= 2 ==>
      (Contains(Lines(text)[1], "Entry Zone") && r.Failure? ==> r.error == IndexError || r.error == ValueError)
    ensures r.Success? <==>
      Contains(text, "Leverage") && MvipLayout(Lines(text)) && MvipNumeric(Lines(text))
    ensures r.Success? ==> MvipLayout(Lines(text)) && MvipReads(Lines(text), rule, r.value)
  {
    var _ :- Check(Contains(text, "Leverage"));
    var lines := Lines(text);
    var _ :- Check(Contains(lines[0], "USDT"));
    var l1 :- At(lines, 1);
    var _ :- Check(Contains(l1, "Entry Zone"));
    var coin := ReadCoin(rule, lines[0]);
    var l2 :- At(lines, 2);
    var entry :- Number(ParseFloat(Last(Split(l2, " - "))));
    var targets :- MvipTargets(lines);
    var l9 :- At(lines, 9);
    var sl :- Number(ParseFloat(LastToken(l9)));
    Success(WithDefaults(coin, entry, sl, targets))
  }

  // ---------------------------------------------------------------------
  // CHANNELS

  datatype Channel = Bfp | Mvip

  /** `CHANNELS = [BFP, MVIP]` */
  const AllChannels: seq<Channel> := [Bfp, Mvip]

  /** `ch.chan_id` */
  function ChanId(ch: Channel): int {
    match ch
    case Bfp => BfpChanId
    case Mvip => MvipChanId
  }

  /** The entry of `CHANNELS` whose `chan_id` is the chat id, if any. */
  function ChannelFor(chatId: int): (r: Option<Channel>)
    ensures forall ch :: r == Some(ch) <==> ch in AllChannels && ChanId(ch) == chatId
    ensures r.None? <==> chatId != BfpChanId && chatId != MvipChanId
  {
    if chatId == BfpChanId then Some(Bfp)
    else if chatId == MvipChanId then Some(Mvip)
    else None
  }

  /**
    `ch.parse(text)`: a BFP signal waits for its entry and risks 4% of the
    balance; an MVIP signal enters at market with the constructor defaults.
   */
  function Parse(ch: Channel, text: string): (r: Result<Signal>)
    ensures r.Success? ==> r.value.leverage == DefaultLeverage
    ensures r.Success? ==> (r.value.waitEntry <==> ch == Bfp)
    ensures r.Success? ==> r.value.fraction == if ch == Bfp then BfpFraction else DefaultFraction
    ensures r.Success? ==> |r.value.targets| == if ch == Bfp then 5 else 3
    ensures r.Success? ==> !HasChar(r.value.coin, '/') && !HasChar(r.value.coin, '#')
    ensures ch == Mvip && !Contains(text, "Leverage") ==> r == Failure(AssertionError)
    ensures ch == Bfp && !EndsWith(Lines(text)[0], "Signal") ==> r == Failure(AssertionError)
    ensures ch == Bfp ==>
      (r.Success? <==> BfpHeader(Lines(text)) && BfpShape(Lines(text), Compact) && BfpNumeric(Lines(text), Compact))
    ensures ch == Bfp && r.Success? ==>
      BfpShape(Lines(text), Compact) && BfpReads(Lines(text), Compact, Corrected, r.value)
    ensures ch == Mvip ==>
      (r.Success? <==> Contains(text, "Leverage") && MvipLayout(Lines(text)) && MvipNumeric(Lines(text)))
    ensures ch == Mvip && r.Success? ==> MvipLayout(Lines(text)) && MvipReads(Lines(text), Corrected, r.value)
  {
    match ch
    case Bfp => ParseBfp(text, Corrected)
    case Mvip => ParseMvip(text, Corrected)
  }

  // ---------------------------------------------------------------------
  // Messages in the providers' layouts

  /** A token that survives splitting on spaces and on newlines. */
  predicate Word(t: string) {
    |t| > 0 && !HasChar(t, ' ') && !HasChar(t, '\n')
  }

  /** Lines that the blank-line collapse and the newline split give back unchanged. */
  predicate PlainLines(lines: seq<string>) {
    forall k :: 0 <= k < |lines| ==> |lines[k]| > 0 && !HasChar(lines[k], '\n')
  }

  lemma LinesOfJoin(lines: seq<string>)
    requires |lines| > 0 && PlainLines(lines)
    ensures Lines(Join(lines, "\n")) == lines
  {
    assert "\n" + "\n" == "\n\n";
    CollapseKeepsJoin(lines, "\n");
    SplitJoin(lines, "\n");
  }

  /** The last space-separated token of `prefix + " " + w` is `w`. */
  lemma LastTokenAfter(prefix: string, w: string)
    requires !HasChar(w, ' ')
    ensures LastToken(prefix + " " + w) == w
  {
    SplitAround(prefix, " ", w);
    SplitNoSeparator(w, " ");
  }

  /** One item and its dash at the front of a dash list. */
  lemma DashStep(item: string, rest: string)
    requires !HasChar(item, ' ')
    ensures Tokens(item + " " + ("-" + " " + rest)) == [item, "-"] + Tokens(rest)
  {
    SplitNoSeparator(item, " ");
    SplitAround(item, " ", "-" + " " + rest);
    SplitAround("-", " ", rest);
    SplitNoSeparator("-", " ");
  }

  /** `" - ".join(ts).split(" ")` alternates the items with dashes. */
  lemma {:induction false} DashListTokens(ts: seq<string>)
    requires |ts| > 0 && forall k :: 0 <= k < |ts| ==> !HasChar(ts[k], ' ')
    ensures |Tokens(Join(ts, " - "))| == 2 * |ts| - 1
    ensures forall k :: 0 <= k < |ts| ==> Tokens(Join(ts, " - "))[2 * k] == ts[k]
    decreases |ts|
  {
    var whole := Join(ts, " - ");
    SplitNoSeparator(ts[0], " ");
    if |ts| == 1 {
      assert whole == ts[0];
    } else {
      var rest := Join(ts[1..], " - ");
      DashListTokens(ts[1..]);
      var r := Tokens(rest);
      assert whole == ts[0] + " " + ("-" + " " + rest);
      DashStep(ts[0], rest);
      forall k | 1 <= k < |ts|
        ensures Tokens(whole)[2 * k] == ts[k]
      {
        assert r[2 * (k - 1)] == ts[1..][k - 1];
      }
    }
  }

  /** "Targets: t0 - t1 - t2 - t3 - t4" carries `t_i` at token `Slot(i)`. */
  lemma TargetsLineTokens(ts: seq<string>)
    requires |ts| == 5 && forall k :: 0 <= k < 5 ==> !HasChar(ts[k], ' ')
    ensures |Tokens("Targets: " + Join(ts, " - "))| == 10
    ensures forall i :: 0 <= i < 5 ==> Tokens("Targets: " + Join(ts, " - "))[Slot(i)] == ts[i]
  {
    var list := Join(ts, " - ");
    assert !HasChar("Targets:", ' ');
    assert "Targets: " + list == "Targets:" + " " + list;
    WordThenTokens("Targets:", list);
    DashListTokens(ts);
    var t := Tokens(list);
    forall i | 0 <= i < 5
      ensures Tokens("Targets: " + list)[Slot(i)] == ts[i]
    {
      assert t[2 * i] == ts[i];
    }
  }

  /** A plain word followed by a space is one token ahead of the rest. */
  lemma WordThenTokens(word: string, rest: string)
    requires !HasChar(word, ' ')
    ensures Tokens(word + " " + rest) == [word] + Tokens(rest)
  {
    SplitAround(word, " ", rest);
    SplitNoSeparator(word, " ");
  }

  /** The lines of a BFP message in the layout the new parser reads. */
  function BfpLines(header: string, side: string, coin: string, entry: string,
                    targets: seq<string>, sl: string): seq<string>
  {
    [ "Binance Future Signal",
      header,
      side + " #" + coin + "/USDT",
      "Entry Point - " + entry,
      "Targets: " + Join(targets, " - "),
      "Leverage - 10x",
      "Stop Loss - " + sl ]
  }

  /** The literal lines of the BFP layout are plain. */
  lemma BfpLinesPlain(header: string, side: string, coin: string, entry: string,
                      targets: seq<string>, sl: string)
    requires |header| > 0 && !HasChar(header, '\n') && !HasChar(side, '\n') && !HasChar(coin, '\n')
    requires Word(entry) && Word(sl) && forall k :: 0 <= k < |targets| ==> Word(targets[k])
    ensures PlainLines(BfpLines(header, side, coin, entry, targets, sl))
  {
    var nl := '\n';
    var lines := BfpLines(header, side, coin, entry, targets, sl);
    forall k | 0 <= k < |lines|
      ensures |lines[k]| > 0 && !HasChar(lines[k], nl)
    {
      if k == 0 {
        assert !HasChar("Binance Future Signal", nl);
      } else if k == 2 {
        HasCharConcat(side, " #", nl);
        HasCharConcat(side + " #", coin, nl);
        HasCharConcat(side + " #" + coin, "/USDT", nl);
      } else if k == 3 {
        HasCharConcat("Entry Point - ", entry, nl);
      } else if k == 4 {
        JoinAvoids(targets, " - ", nl);
        HasCharConcat("Targets: ", Join(targets, " - "), nl);
      } else if k == 5 {
        assert !HasChar("Leverage - 10x", nl);
      } else if k == 6 {
        HasCharConcat("Stop Loss - ", sl, nl);
      }
    }
  }

  /**
    A BFP message written in the providers' layout without blank lines
    (with any direction and side text) parses back to the coin, prices and
    defaults it was written from. `Legacy.CollapseReadsSpaced` covers the
    layout with blank lines, and `BfpMessageRoundTrip` the messages that
    carry more text.
   */
  lemma BfpRoundTrip(header: string, side: string, coin: string, entry: string,
                     targets: seq<string>, sl: string, e: real, ts: seq<real>, stop: real)
    requires EndsWith(header, "ENTRY POINT") && !HasChar(header, '\n')
    requires !HasChar(side, '\n')
    requires !HasChar(coin, '/') && !HasChar(coin, '#') && !HasChar(coin, '\n')
    requires Word(entry) && Word(sl) && |targets| == 5 && forall k :: 0 <= k < 5 ==> Word(targets[k])
    requires ParseFloat(entry) == Some(e) && ParseFloat(sl) == Some(stop)
    requires |ts| == 5 && forall k :: 0 <= k < 5 ==> ParseFloat(targets[k]) == Some(ts[k])
    ensures ParseBfp(Join(BfpLines(header, side, coin, entry, targets, sl), "\n"), Corrected)
         == Success(Signal(coin, e, stop, ts, BfpFraction, DefaultLeverage, true))
  {
    var lines := BfpLines(header, side, coin, entry, targets, sl);
    BfpLinesPlain(header, side, coin, entry, targets, sl);
    LinesOfJoin(lines);
    BfpFields(header, side, coin, entry, targets, sl);
    BfpReadsLines(Join(lines, "\n"), lines, coin, e, ts, stop);
  }

  /**
    The BFP layout as the providers post it: more text after the pair on
    the coin line, and more lines after the stop-loss.
   */
  function BfpMessage(header: string, side: string, coin: string, suffix: string, entry: string,
                      targets: seq<string>, sl: string, trailer: seq<string>): seq<string>
  {
    var lines := BfpLines(header, side, coin, entry, targets, sl);
    lines[2 := lines[2] + suffix] + trailer
  }

  /**
    The parser reads only the first seven lines, and the coin up to the
    '/', so a message with a suffix on its coin line and trailing lines
    parses back to the values it was written from.
   */
  lemma BfpMessageRoundTrip(header: string, side: string, coin: string, suffix: string, entry: string,
                            targets: seq<string>, sl: string, trailer: seq<string>,
                            e: real, ts: seq<real>, stop: real)
    requires EndsWith(header, "ENTRY POINT") && !HasChar(header, '\n')
    requires !HasChar(side, '\n')
    requires !HasChar(coin, '/') && !HasChar(coin, '#') && !HasChar(coin, '\n')
    requires !HasChar(suffix, '#') && !HasChar(suffix, '\n') && PlainLines(trailer)
    requires Word(entry) && Word(sl) && |targets| == 5 && forall k :: 0 <= k < 5 ==> Word(targets[k])
    requires ParseFloat(entry) == Some(e) && ParseFloat(sl) == Some(stop)
    requires |ts| == 5 && forall k :: 0 <= k < 5 ==> ParseFloat(targets[k]) == Some(ts[k])
    ensures ParseBfp(Join(BfpMessage(header, side, coin, suffix, entry, targets, sl, trailer), "\n"), Corrected)
         == Success(Signal(coin, e, stop, ts, BfpFraction, DefaultLeverage, true))
  {
    var lines := BfpMessage(header, side, coin, suffix, entry, targets, sl, trailer);
    BfpMessagePlain(header, side, coin, suffix, entry, targets, sl, trailer);
    LinesOfJoin(lines);
    BfpFields(header, side, coin, entry, targets, sl);
    SuffixedCoin(side, coin, suffix);
    BfpReadsLines(Join(lines, "\n"), lines, coin, e, ts, stop);
  }

  /** A suffix on the coin line and plain trailing lines keep the BFP lines plain. */
  lemma BfpMessagePlain(header: string, side: string, coin: string, suffix: string, entry: string,
                        targets: seq<string>, sl: string, trailer: seq<string>)
    requires |header| > 0 && !HasChar(header, '\n') && !HasChar(side, '\n') && !HasChar(coin, '\n')
    requires !HasChar(suffix, '\n') && PlainLines(trailer)
    requires Word(entry) && Word(sl) && forall k :: 0 <= k < |targets| ==> Word(targets[k])
    ensures PlainLines(BfpMessage(header, side, coin, suffix, entry, targets, sl, trailer))
  {
    var base := BfpLines(header, side, coin, entry, targets, sl);
    var lines := BfpMessage(header, side, coin, suffix, entry, targets, sl, trailer);
    BfpLinesPlain(header, side, coin, entry, targets, sl);
    HasCharConcat(base[2], suffix, '\n');
    forall k | 0 <= k < |lines|
      ensures |lines[k]| > 0 && !HasChar(lines[k], '\n')
    {
      if k >= 7 {
        assert lines[k] == trailer[k - 7];
      } else if k != 2 {
        assert lines[k] == base[k];
      }
    }
  }

  /** Text after the pair, without a '#', leaves the coin as it was. */
  lemma SuffixedCoin(side: string, coin: string, suffix: string)
    requires !HasChar(coin, '/') && !HasChar(coin, '#') && !HasChar(suffix, '#')
    ensures CoinOf(side + " #" + coin + "/USDT" + suffix) == coin
  {
    HasCharConcat("USDT", suffix, '#');
    assert side + " #" + coin + "/USDT" + suffix == (side + " ") + "#" + coin + "/" + ("USDT" + suffix);
    CoinOfReads(side + " ", coin, "USDT" + suffix);
  }

  /** Where the fields of the BFP layout sit in its lines. */
  lemma BfpFields(header: string, side: string, coin: string, entry: string,
                  targets: seq<string>, sl: string)
    requires EndsWith(header, "ENTRY POINT")
    requires !HasChar(coin, '/') && !HasChar(coin, '#')
    requires Word(entry) && Word(sl) && |targets| == 5 && forall k :: 0 <= k < 5 ==> Word(targets[k])
    ensures var lines := BfpLines(header, side, coin, entry, targets, sl);
      && BfpHeader(lines)
      && CoinOf(lines[2]) == coin
      && LastToken(lines[3]) == entry
      && |Tokens(lines[4])| == 10
      && (forall i :: 0 <= i < 5 ==> Tokens(lines[4])[Slot(i)] == targets[i])
      && LastToken(lines[6]) == sl
  {
    var lines := BfpLines(header, side, coin, entry, targets, sl);
    assert lines[0] == "Binance Future " + "Signal";
    assert lines[2] == (side + " ") + "#" + coin + "/" + "USDT";
    CoinOfReads(side + " ", coin, "USDT");
    assert lines[3] == "Entry Point -" + " " + entry;
    LastTokenAfter("Entry Point -", entry);
    TargetsLineTokens(targets);
    assert lines[6] == "Stop Loss -" + " " + sl;
    LastTokenAfter("Stop Loss -", sl);
  }

  /** A text whose seven lines carry the BFP header and fields parses to exactly those fields. */
  lemma BfpReadsLines(text: string, lines: seq<string>, coin: string, e: real, ts: seq<real>, stop: real)
    requires Lines(text) == lines && |lines| >= 7 && |ts| == 5
    requires BfpHeader(lines) && CoinOf(lines[2]) == coin
    requires ParseFloat(LastToken(lines[3])) == Some(e)
    requires |Tokens(lines[4])| >= 10
    requires forall i :: 0 <= i < 5 ==> ParseFloat(Tokens(lines[4])[Slot(i)]) == Some(ts[i])
    requires ParseFloat(LastToken(lines[6])) == Some(stop)
    ensures ParseBfp(text, Corrected) == Success(Signal(coin, e, stop, ts, BfpFraction, DefaultLeverage, true))
  {
    assert BfpShape(lines, Compact) && BfpNumeric(lines, Compact);
    var v := ParseBfp(text, Corrected).value;
    assert v.targets == ts;
  }

  /** What the BFP round trip says about the lines themselves. */
  lemma BfpLinesRead(header: string, side: string, coin: string, entry: string,
                     targets: seq<string>, sl: string, e: real, ts: seq<real>, stop: real)
    requires EndsWith(header, "ENTRY POINT") && !HasChar(header, '\n')
    requires !HasChar(side, '\n')
    requires !HasChar(coin, '/') && !HasChar(coin, '#') && !HasChar(coin, '\n')
    requires Word(entry) && Word(sl) && |targets| == 5 && forall k :: 0 <= k < 5 ==> Word(targets[k])
    requires ParseFloat(entry) == Some(e) && ParseFloat(sl) == Some(stop)
    requires |ts| == 5 && forall k :: 0 <= k < 5 ==> ParseFloat(targets[k]) == Some(ts[k])
    ensures var lines := BfpLines(header, side, coin, entry, targets, sl);
      && BfpHeader(lines) && BfpShape(lines, Compact) && BfpNumeric(lines, Compact)
      && BfpReads(lines, Compact, Corrected, Signal(coin, e, stop, ts, BfpFraction, DefaultLeverage, true))
  {
    var lines := BfpLines(header, side, coin, entry, targets, sl);
    BfpRoundTrip(header, side, coin, entry, targets, sl, e, ts, stop);
    BfpLinesPlain(header, side, coin, entry, targets, sl);
    LinesOfJoin(lines);
  }

  /**
    `BFP.parse` as written, on a message whose side text is
    "direction/side" (as in "Long/Buy #BLZ/USDT"), returns the direction
    as the coin; every other field is read as the corrected parser reads it.
   */
  lemma BfpAsWrittenReadsDirection(header: string, direction: string, word: string, coin: string, entry: string,
                                   targets: seq<string>, sl: string, e: real, ts: seq<real>, stop: real)
    requires EndsWith(header, "ENTRY POINT") && !HasChar(header, '\n')
    requires !HasChar(direction, '/') && !HasChar(direction, '#') && !HasChar(direction, '\n')
    requires !HasChar(word, '\n')
    requires !HasChar(coin, '/') && !HasChar(coin, '#') && !HasChar(coin, '\n')
    requires Word(entry) && Word(sl) && |targets| == 5 && forall k :: 0 <= k < 5 ==> Word(targets[k])
    requires ParseFloat(entry) == Some(e) && ParseFloat(sl) == Some(stop)
    requires |ts| == 5 && forall k :: 0 <= k < 5 ==> ParseFloat(targets[k]) == Some(ts[k])
    ensures ParseBfp(Join(BfpLines(header, direction + "/" + word, coin, entry, targets, sl), "\n"), AsWritten)
         == Success(Signal(direction, e, stop, ts, BfpFraction, DefaultLeverage, true))
  {
    var text := Join(BfpLines(header, direction + "/" + word, coin, entry, targets, sl), "\n");
    HasCharConcat(direction, "/", '\n');
    HasCharConcat(direction + "/", word, '\n');
    BfpRoundTrip(header, direction + "/" + word, coin, entry, targets, sl, e, ts, stop);
    ParseBfpRulesDiffer(text);
    BfpTextCoinAsWritten(header, direction, word, coin, entry, targets, sl);
  }

  /** On BFP text, the as-written parse is the corrected one with the coin read as written. */
  lemma ParseBfpRulesDiffer(text: string)
    ensures var w, c := ParseBfp(text, AsWritten), ParseBfp(text, Corrected);
      && (w.Success? <==> c.Success?)
      && (w.Failure? ==> w == c)
      && (w.Success? ==> w.value == c.value.(coin := CoinAsWritten(Lines(text)[Compact.coin])))
  {
    BfpRulesDiffer(Lines(text), Compact);
  }

  /** The third line of the BFP layout, read as written, gives the direction. */
  lemma BfpTextCoinAsWritten(header: string, direction: string, word: string, coin: string, entry: string,
                             targets: seq<string>, sl: string)
    requires EndsWith(header, "ENTRY POINT") && !HasChar(header, '\n')
    requires !HasChar(direction, '/') && !HasChar(direction, '#') && !HasChar(direction, '\n')
    requires !HasChar(word, '\n')
    requires !HasChar(coin, '/') && !HasChar(coin, '#') && !HasChar(coin, '\n')
    requires Word(entry) && Word(sl) && |targets| == 5 && forall k :: 0 <= k < 5 ==> Word(targets[k])
    ensures var lines := Lines(Join(BfpLines(header, direction + "/" + word, coin, entry, targets, sl), "\n"));
      |lines| == 7 && CoinAsWritten(lines[Compact.coin]) == direction
  {
    var side := direction + "/" + word;
    HasCharConcat(direction, "/", '\n');
    HasCharConcat(direction + "/", word, '\n');
    var lines := BfpLines(header, side, coin, entry, targets, sl);
    BfpLinesPlain(header, side, coin, entry, targets, sl);
    LinesOfJoin(lines);
    assert lines[2] == direction + "/" + word + " #" + coin + "/" + "USDT";
    CoinAsWrittenReadsDirection(direction, word, coin, "USDT");
  }

  /**
    When the side text holds no '/', `BFP.parse` as written and the
    corrected parser both read the compact layout back to the values it
    was written from.
   */
  lemma BfpRoundTripSlashFree(rule: CoinRule, header: string, side: string, coin: string, entry: string,
                              targets: seq<string>, sl: string, e: real, ts: seq<real>, stop: real)
    requires EndsWith(header, "ENTRY POINT") && !HasChar(header, '\n')
    requires !HasChar(side, '\n') && !HasChar(side, '/')
    requires !HasChar(coin, '/') && !HasChar(coin, '#') && !HasChar(coin, '\n')
    requires Word(entry) && Word(sl) && |targets| == 5 && forall k :: 0 <= k < 5 ==> Word(targets[k])
    requires ParseFloat(entry) == Some(e) && ParseFloat(sl) == Some(stop)
    requires |ts| == 5 && forall k :: 0 <= k < 5 ==> ParseFloat(targets[k]) == Some(ts[k])
    ensures ParseBfp(Join(BfpLines(header, side, coin, entry, targets, sl), "\n"), rule)
         == Success(Signal(coin, e, stop, ts, BfpFraction, DefaultLeverage, true))
  {
    var text := Join(BfpLines(header, side, coin, entry, targets, sl), "\n");
    BfpRoundTrip(header, side, coin, entry, targets, sl, e, ts, stop);
    ParseBfpRulesDiffer(text);
    BfpTextCoinSlashFree(header, side, coin, entry, targets, sl);
  }

  /** The third line of the BFP layout, read as written, gives the coin when the side has no '/'. */
  lemma BfpTextCoinSlashFree(header: string, side: string, coin: string, entry: string,
                             targets: seq<string>, sl: string)
    requires EndsWith(header, "ENTRY POINT") && !HasChar(header, '\n')
    requires !HasChar(side, '\n') && !HasChar(side, '/')
    requires !HasChar(coin, '/') && !HasChar(coin, '#') && !HasChar(coin, '\n')
    requires Word(entry) && Word(sl) && |targets| == 5 && forall k :: 0 <= k < 5 ==> Word(targets[k])
    ensures var lines := Lines(Join(BfpLines(header, side, coin, entry, targets, sl), "\n"));
      |lines| == 7 && CoinAsWritten(lines[Compact.coin]) == coin
  {
    var lines := BfpLines(header, side, coin, entry, targets, sl);
    BfpLinesPlain(header, side, coin, entry, targets, sl);
    LinesOfJoin(lines);
    HasCharConcat(side, " ", '/');
    assert lines[2] == (side + " ") + "#" + coin + "/" + "USDT";
    CoinVersionsAgree(side + " ", coin, "USDT");
  }

  /** The lines of an MVIP message in the layout the parser reads. */
  function MvipLines(coin: string, low: string, high: string, targets: seq<string>,
                     leverage: string, sl: string): seq<string>
    requires |targets| == 3
  {
    [ "#" + coin + "/USDT",
      "Entry Zone:",
      low + " - " + high,
      "Take-Profit Targets:",
      "1) " + targets[0],
      "2) " + targets[1],
      "3) " + targets[2],
      "Leverage x" + leverage,
      "Stop Targets:",
      "1) " + sl ]
  }

  lemma MvipLinesPlain(coin: string, low: string, high: string, targets: seq<string>,
                       leverage: string, sl: string)
    requires |targets| == 3 && forall k :: 0 <= k < 3 ==> Word(targets[k])
    requires !HasChar(coin, '\n') && Word(low) && Word(high) && !HasChar(leverage, '\n') && Word(sl)
    ensures PlainLines(MvipLines(coin, low, high, targets, leverage, sl))
  {
    var nl := '\n';
    var lines := MvipLines(coin, low, high, targets, leverage, sl);
    forall k | 0 <= k < |lines|
      ensures |lines[k]| > 0 && !HasChar(lines[k], nl)
    {
      if k == 0 {
        HasCharConcat("#", coin, nl);
        HasCharConcat("#" + coin, "/USDT", nl);
      } else if k == 1 {
        assert !HasChar("Entry Zone:", nl);
      } else if k == 2 {
        HasCharConcat(low, " - ", nl);
        HasCharConcat(low + " - ", high, nl);
      } else if k == 3 {
        assert !HasChar("Take-Profit Targets:", nl);
      } else if k == 4 {
        HasCharConcat("1) ", targets[0], nl);
      } else if k == 5 {
        HasCharConcat("2) ", targets[1], nl);
      } else if k == 6 {
        HasCharConcat("3) ", targets[2], nl);
      } else if k == 7 {
        HasCharConcat("Leverage x", leverage, nl);
      } else if k == 8 {
        assert !HasChar("Stop Targets:", nl);
      } else if k == 9 {
        HasCharConcat("1) ", sl, nl);
      }
    }
  }

  /** The markers the MVIP parser asserts on are present. */
  lemma MvipMarkers(coin: string, low: string, high: string, targets: seq<string>,
                    leverage: string, sl: string)
    requires |targets| == 3
    ensures var lines := MvipLines(coin, low, high, targets, leverage, sl);
      && Contains(Join(lines, "\n"), "Leverage")
      && Contains(lines[0], "USDT")
      && Contains(lines[1], "Entry Zone")
  {
    var lines := MvipLines(coin, low, high, targets, leverage, sl);
    var lev := "Leverage";
    var zone := "Entry Zone";
    var quote := "USDT";
    assert lines[7] == "" + lev + (" x" + leverage);
    ContainsInfix("", lev, " x" + leverage);
    JoinContains(lines, "\n", 7, lev);
    assert lines[0] == "#" + coin + "/" + quote + "";
    ContainsInfix("#" + coin + "/", quote, "");
    assert lines[1] == "" + zone + ":";
    ContainsInfix("", zone, ":");
  }

  /** Where the MVIP parser finds the entry, the targets and the stop. */
  lemma MvipFields(coin: string, low: string, high: string, targets: seq<string>,
                   leverage: string, sl: string)
    requires |targets| == 3 && forall k :: 0 <= k < 3 ==> Word(targets[k])
    requires !HasChar(coin, '/') && !HasChar(coin, '#')
    requires Word(low) && Word(high) && Word(sl)
    ensures var lines := MvipLines(coin, low, high, targets, leverage, sl);
      && CoinOf(lines[0]) == coin && CoinAsWritten(lines[0]) == coin
      && Last(Split(lines[2], " - ")) == high
      && LastToken(lines[4]) == targets[0]
      && LastToken(lines[5]) == targets[1]
      && LastToken(lines[6]) == targets[2]
      && LastToken(lines[9]) == sl
  {
    var lines := MvipLines(coin, low, high, targets, leverage, sl);
    assert lines[0] == "" + "#" + coin + "/" + "USDT";
    CoinVersionsAgree("", coin, "USDT");
    SplitAfterPiece(low, " - ", high);
    SplitNoSeparator(high, " - ");
    assert lines[4] == "1)" + " " + targets[0];
    LastTokenAfter("1)", targets[0]);
    assert lines[5] == "2)" + " " + targets[1];
    LastTokenAfter("2)", targets[1]);
    assert lines[6] == "3)" + " " + targets[2];
    LastTokenAfter("3)", targets[2]);
    assert lines[9] == "1)" + " " + sl;
    LastTokenAfter("1)", sl);
  }

  /**
    An MVIP message written in the providers' layout parses back to its
    coin, the upper end of the entry zone, the three targets and the stop,
    with the default fraction and leverage, under either coin reading.
   */
  lemma MvipRoundTrip(rule: CoinRule, coin: string, low: string, high: string, targets: seq<string>,
                      leverage: string, sl: string, e: real, ts: seq<real>, stop: real)
    requires |targets| == 3 && forall k :: 0 <= k < 3 ==> Word(targets[k])
    requires !HasChar(coin, '/') && !HasChar(coin, '#') && !HasChar(coin, '\n')
    requires Word(low) && Word(high) && !HasChar(leverage, '\n') && Word(sl)
    requires ParseFloat(high) == Some(e) && ParseFloat(sl) == Some(stop)
    requires |ts| == 3 && forall k :: 0 <= k < 3 ==> ParseFloat(targets[k]) == Some(ts[k])
    ensures ParseMvip(Join(MvipLines(coin, low, high, targets, leverage, sl), "\n"), rule)
         == Success(WithDefaults(coin, e, stop, ts))
  {
    var lines := MvipLines(coin, low, high, targets, leverage, sl);
    var text := Join(lines, "\n");
    MvipLinesPlain(coin, low, high, targets, leverage, sl);
    LinesOfJoin(lines);
    MvipMarkers(coin, low, high, targets, leverage, sl);
    MvipFields(coin, low, high, targets, leverage, sl);
    MvipReadsLines(rule, text, lines, coin, e, ts, stop);
  }

  /** A text whose lines carry the MVIP markers and fields parses to exactly those fields. */
  lemma MvipReadsLines(rule: CoinRule, text: string, lines: seq<string>, coin: string, e: real, ts: seq<real>, stop: real)
    requires Lines(text) == lines && |ts| == 3
    requires Contains(text, "Leverage") && MvipLayout(lines)
    requires ReadCoin(rule, lines[0]) == coin
    requires ParseFloat(Last(Split(lines[2], " - "))) == Some(e)
    requires ParseFloat(LastToken(lines[4])) == Some(ts[0])
    requires ParseFloat(LastToken(lines[5])) == Some(ts[1])
    requires ParseFloat(LastToken(lines[6])) == Some(ts[2])
    requires ParseFloat(LastToken(lines[9])) == Some(stop)
    ensures ParseMvip(text, rule) == Success(WithDefaults(coin, e, stop, ts))
  {
    MvipSucceeds(rule, text, lines);
    var v := ParseMvip(text, rule).value;
    MvipTargetsRead(lines, v.targets, ts);
    assert v == WithDefaults(coin, e, stop, ts);
  }

  /** The MVIP parse succeeds once the markers are present and every field is a number. */
  lemma MvipSucceeds(rule: CoinRule, text: string, lines: seq<string>)
    requires Lines(text) == lines
    requires Contains(text, "Leverage") && MvipLayout(lines)
    requires ParseFloat(Last(Split(lines[2], " - "))).Some?
    requires ParseFloat(LastToken(lines[4])).Some?
    requires ParseFloat(LastToken(lines[5])).Some?
    requires ParseFloat(LastToken(lines[6])).Some?
    requires ParseFloat(LastToken(lines[9])).Some?
    ensures ParseMvip(text, rule).Success?
  {
    forall i | 4 <= i < 7 ensures ParseFloat(LastToken(lines[i])).Some? {
      assert i == 4 || i == 5 || i == 6;
    }
    assert MvipNumeric(lines);
  }

  /** Three targets read from lines 4 to 6 are the three numbers those lines end with. */
  lemma MvipTargetsRead(lines: seq<string>, vs: seq<real>, ts: seq<real>)
    requires |lines| >= 7 && |vs| == 3 && |ts| == 3
    requires forall i :: 0 <= i < 3 ==> ParseFloat(LastToken(lines[4 + i])) == Some(vs[i])
    requires ParseFloat(LastToken(lines[4])) == Some(ts[0])
    requires ParseFloat(LastToken(lines[5])) == Some(ts[1])
    requires ParseFloat(LastToken(lines[6])) == Some(ts[2])
    ensures vs == ts
  {
    SameReadsSameValues(s => ParseFloat(LastToken(s)), lines, vs, ts);
  }

  /** Two value lists read by the same reader from lines 4 to 6 agree. */
  lemma SameReadsSameValues(read: string -> Option<real>, lines: seq<string>, vs: seq<real>, ts: seq<real>)
    requires |lines| >= 7 && |vs| == 3 && |ts| == 3
    requires forall i :: 0 <= i < 3 ==> read(lines[4 + i]) == Some(vs[i])
    requires read(lines[4]) == Some(ts[0]) && read(lines[5]) == Some(ts[1]) && read(lines[6]) == Some(ts[2])
    ensures vs == ts
  {
    assert read(lines[4 + 0]) == Some(vs[0]);
    assert read(lines[4 + 1]) == Some(vs[1]);
    assert read(lines[4 + 2]) == Some(vs[2]);
  }

  // ---------------------------------------------------------------------
  // The channels' parsers on their providers' messages

  /** The BFP channel reads a BFP message back to the signal it was written from. */
  lemma ParseReadsBfpMessage(header: string, side: string, coin: string, entry: string,
                             targets: seq<string>, sl: string, e: real, ts: seq<real>, stop: real)
    requires EndsWith(header, "ENTRY POINT") && !HasChar(header, '\n')
    requires !HasChar(side, '\n')
    requires !HasChar(coin, '/') && !HasChar(coin, '#') && !HasChar(coin, '\n')
    requires Word(entry) && Word(sl) && |targets| == 5 && forall k :: 0 <= k < 5 ==> Word(targets[k])
    requires ParseFloat(entry) == Some(e) && ParseFloat(sl) == Some(stop)
    requires |ts| == 5 && forall k :: 0 <= k < 5 ==> ParseFloat(targets[k]) == Some(ts[k])
    ensures Parse(Bfp, Join(BfpLines(header, side, coin, entry, targets, sl), "\n"))
         == Success(Signal(coin, e, stop, ts, BfpFraction, DefaultLeverage, true))
  {
    BfpRoundTrip(header, side, coin, entry, targets, sl, e, ts, stop);
  }

  /** The MVIP channel reads an MVIP message back to the signal it was written from. */
  lemma ParseReadsMvipMessage(coin: string, low: string, high: string, targets: seq<string>,
                              leverage: string, sl: string, e: real, ts: seq<real>, stop: real)
    requires |targets| == 3 && forall k :: 0 <= k < 3 ==> Word(targets[k])
    requires !HasChar(coin, '/') && !HasChar(coin, '#') && !HasChar(coin, '\n')
    requires Word(low) && Word(high) && !HasChar(leverage, '\n') && Word(sl)
    requires ParseFloat(high) == Some(e) && ParseFloat(sl) == Some(stop)
    requires |ts| == 3 && forall k :: 0 <= k < 3 ==> ParseFloat(targets[k]) == Some(ts[k])
    ensures Parse(Mvip, Join(MvipLines(coin, low, high, targets, leverage, sl), "\n"))
         == Success(WithDefaults(coin, e, stop, ts))
  {
    MvipRoundTrip(Corrected, coin, low, high, targets, leverage, sl, e, ts, stop);
  }
}
