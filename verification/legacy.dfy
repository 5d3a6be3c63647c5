/**
  The older copy of the signal grammar in trader/__init__.py, the one
  `FuturesTrader.get_signal` applies: a BFP parser that splits on
  newlines without collapsing blank lines and so reads the blank-line
  layout by fixed line numbers, an MVIP stub, and `get_signal`.
 */
module Legacy {
  import opened Wrappers
  import opened Text
  import opened Decimal
  import opened Signals
  import opened Channels

  /** The layout with a blank line before the coin, the entry and the targets. */
  const Spaced: Positions := Positions(3, 5, 7, 9)

  /** The lines of the older parser: a plain newline split. */
  function RawLines(text: string): seq<string> {
    Split(text, "\n")
  }

  /** `BFP.parse(text)` (trader/__init__.py), with the coin read by the given rule. */
  function ParseBfpSpaced(text: string, rule: CoinRule): (r: Result<Signal>)
    ensures r.Success? <==> BfpHeader(RawLines(text)) && BfpShape(RawLines(text), Spaced) && BfpNumeric(RawLines(text), Spaced)
    ensures r.Success? ==> BfpShape(RawLines(text), Spaced) && BfpReads(RawLines(text), Spaced, rule, r.value)
    ensures !EndsWith(RawLines(text)[0], "Signal") ==> r == Failure(AssertionError)
    ensures EndsWith(RawLines(text)[0], "Signal") && |RawLines(text)| < 2 ==> r == Failure(IndexError)
    ensures EndsWith(RawLines(text)[0], "Signal") && |RawLines(text)| >= 2 && !EndsWith(RawLines(text)[1], "ENTRY POINT") ==>
      r == Failure(AssertionError)
  {
    BfpParseLines(RawLines(text), Spaced, rule)
  }

  /**
    `MVIP.parse(text)` (trader/__init__.py): only the "Leverage" assertion,
    after which the method falls off its end and returns nothing.
   */
  function ParseMvipStub(text: string): (r: Result<Option<Signal>>)
    ensures r.Failure? <==> !Contains(text, "Leverage")
    ensures r.Failure? ==> r.error == AssertionError
    ensures r.Success? ==> r.value == None
  {
    var _ :- Check(Contains(text, "Leverage"));
    Success(None)
  }

  /** `FuturesTrader.channels = [BFP]` */
  const TraderChannels: seq<int> := [BfpChanId]

  /**
    `FuturesTrader.get_signal(chat_id, text)`: a message from a registered
    chat is parsed; any exception is logged and swallowed, so a message
    that does not parse yields no signal, as does one from any other chat.
   */
  function GetSignal(chatId: int, text: string, rule: CoinRule): (r: Option<Signal>)
    ensures r.Some? <==> chatId in TraderChannels && ParseBfpSpaced(text, rule).Success?
    ensures chatId != BfpChanId ==> r == None
    ensures r.Some? ==> BfpShape(RawLines(text), Spaced) && BfpReads(RawLines(text), Spaced, rule, r.value)
  {
    if chatId == BfpChanId then
      match ParseBfpSpaced(text, rule)
      case Success(s) => Some(s)
      case Failure(_) => None
    else None
  }

  /** The BFP layout with blank lines, as in the third BFP message of trader/test_signal.py. */
  function SpacedLines(header: string, side: string, coin: string, entry: string,
                       targets: seq<string>, sl: string): seq<string>
  {
    var c := BfpLines(header, side, coin, entry, targets, sl);
    [c[0], c[1], "", c[2], "", c[3], "", c[4], c[5], c[6]]
  }

  /** Dropping the blank lines of the spaced layout gives the compact one. */
  lemma SpacedWithoutBlanks(header: string, side: string, coin: string, entry: string,
                            targets: seq<string>, sl: string)
    requires |header| > 0
    ensures NonBlank(SpacedLines(header, side, coin, entry, targets, sl))
         == BfpLines(header, side, coin, entry, targets, sl)
  {
    var c := BfpLines(header, side, coin, entry, targets, sl);
    NonBlankOfSpaced(c[0], c[1], c[2], c[3], c[4], c[5], c[6]);
  }

  /** Blank lines at the three spaced positions are the only ones dropped. */
  lemma NonBlankOfSpaced(a0: string, a1: string, a2: string, a3: string, a4: string, a5: string, a6: string)
    requires a0 != "" && a1 != "" && a2 != "" && a3 != "" && a4 != "" && a5 != "" && a6 != ""
    ensures NonBlank([a0, a1, "", a2, "", a3, "", a4, a5, a6]) == [a0, a1, a2, a3, a4, a5, a6]
  {
    var u5 := [a5, a6];
    var u4 := [a4] + u5;
    var b3 := [""] + u4;
    var u3 := [a3] + b3;
    var b2 := [""] + u3;
    var u2 := [a2] + b2;
    var b1 := [""] + u2;
    var u1 := [a1] + b1;
    assert NonBlank(u5) == u5 by {
      assert u5[1..] == [a6];
      assert [a6][1..] == [];
    }
    NonBlankCons(a4, u5);
    NonBlankDropsBlank(u4);
    NonBlankCons(a3, b3);
    NonBlankDropsBlank(u3);
    NonBlankCons(a2, b2);
    NonBlankDropsBlank(u2);
    NonBlankCons(a1, b1);
    NonBlankCons(a0, u1);
    SpacedAsAppends(a0, a1, a2, a3, a4, a5, a6);
    CompactAsAppends(a0, a1, a2, a3, a4, a5, a6);
  }

  /** The spaced display, written as the appends the blank-line filter unfolds. */
  lemma SpacedAsAppends(a0: string, a1: string, a2: string, a3: string, a4: string, a5: string, a6: string)
    ensures [a0] + ([a1] + ([""] + ([a2] + ([""] + ([a3] + ([""] + ([a4] + [a5, a6])))))))
         == [a0, a1, "", a2, "", a3, "", a4, a5, a6]
  {
  }

  /** The compact display, written as appends. */
  lemma CompactAsAppends(a0: string, a1: string, a2: string, a3: string, a4: string, a5: string, a6: string)
    ensures [a0] + ([a1] + ([a2] + ([a3] + ([a4] + [a5, a6])))) == [a0, a1, a2, a3, a4, a5, a6]
  {
  }

  /** The spaced layout avoids newlines inside its lines and has only isolated blank lines. */
  lemma SpacedLinesShape(header: string, side: string, coin: string, entry: string,
                         targets: seq<string>, sl: string)
    requires |header| > 0 && !HasChar(header, '\n') && !HasChar(side, '\n') && !HasChar(coin, '\n')
    requires Word(entry) && Word(sl) && forall k :: 0 <= k < |targets| ==> Word(targets[k])
    ensures SingleBlanks(SpacedLines(header, side, coin, entry, targets, sl), "\n")
  {
    BfpLinesPlain(header, side, coin, entry, targets, sl);
  }

  /**
    The older parser reads a BFP message written in the spaced layout back
    to the coin, prices and defaults it was written from.
   */
  lemma SpacedRoundTrip(header: string, side: string, coin: string, entry: string,
                        targets: seq<string>, sl: string, e: real, ts: seq<real>, stop: real)
    requires EndsWith(header, "ENTRY POINT") && !HasChar(header, '\n')
    requires !HasChar(side, '\n')
    requires !HasChar(coin, '/') && !HasChar(coin, '#') && !HasChar(coin, '\n')
    requires Word(entry) && Word(sl) && |targets| == 5 && forall k :: 0 <= k < 5 ==> Word(targets[k])
    requires ParseFloat(entry) == Some(e) && ParseFloat(sl) == Some(stop)
    requires |ts| == 5 && forall k :: 0 <= k < 5 ==> ParseFloat(targets[k]) == Some(ts[k])
    ensures ParseBfpSpaced(Join(SpacedLines(header, side, coin, entry, targets, sl), "\n"), Corrected)
         == Success(Signal(coin, e, stop, ts, BfpFraction, DefaultLeverage, true))
  {
    var compact := BfpLines(header, side, coin, entry, targets, sl);
    var spaced := SpacedLines(header, side, coin, entry, targets, sl);
    var sig := Signal(coin, e, stop, ts, BfpFraction, DefaultLeverage, true);
    SpacedLinesShape(header, side, coin, entry, targets, sl);
    SplitJoin(spaced, "\n");
    BfpLinesRead(header, side, coin, entry, targets, sl, e, ts, stop);
    assert spaced[0] == compact[0] && spaced[1] == compact[1];
    assert spaced[3] == compact[2] && spaced[5] == compact[3] && spaced[7] == compact[4] && spaced[9] == compact[6];
    assert BfpHeader(spaced) && BfpShape(spaced, Spaced) && BfpNumeric(spaced, Spaced);
    var r := ParseBfpSpaced(Join(spaced, "\n"), Corrected);
    assert r.Success?;
    BfpReadsAgree(Corrected, compact, Compact, sig, spaced, Spaced, r.value);
  }

  /**
    The newer parser, which collapses blank lines first, reads the spaced
    layout exactly as the older parser does, under either coin reading.
   */
  lemma CollapseReadsSpaced(rule: CoinRule, header: string, side: string, coin: string, entry: string,
                            targets: seq<string>, sl: string, e: real, ts: seq<real>, stop: real)
    requires EndsWith(header, "ENTRY POINT") && !HasChar(header, '\n')
    requires !HasChar(side, '\n')
    requires !HasChar(coin, '/') && !HasChar(coin, '#') && !HasChar(coin, '\n')
    requires Word(entry) && Word(sl) && |targets| == 5 && forall k :: 0 <= k < 5 ==> Word(targets[k])
    requires ParseFloat(entry) == Some(e) && ParseFloat(sl) == Some(stop)
    requires |ts| == 5 && forall k :: 0 <= k < 5 ==> ParseFloat(targets[k]) == Some(ts[k])
    ensures ParseBfp(Join(SpacedLines(header, side, coin, entry, targets, sl), "\n"), rule)
         == ParseBfpSpaced(Join(SpacedLines(header, side, coin, entry, targets, sl), "\n"), rule)
  {
    var compact := BfpLines(header, side, coin, entry, targets, sl);
    var spaced := SpacedLines(header, side, coin, entry, targets, sl);
    SpacedLinesShape(header, side, coin, entry, targets, sl);
    assert "\n" + "\n" == "\n\n";
    CollapseRemovesBlankLines(spaced, "\n");
    SpacedWithoutBlanks(header, side, coin, entry, targets, sl);
    BfpLinesPlain(header, side, coin, entry, targets, sl);
    SplitJoin(compact, "\n");
    assert Lines(Join(spaced, "\n")) == compact;
    LinesOfJoin(compact);
    BfpRoundTrip(header, side, coin, entry, targets, sl, e, ts, stop);
    SpacedRoundTrip(header, side, coin, entry, targets, sl, e, ts, stop);
    SplitJoin(spaced, "\n");
    assert RawLines(Join(spaced, "\n")) == spaced;
    BfpRulesDiffer(compact, Compact);
    BfpRulesDiffer(spaced, Spaced);
    assert spaced[3] == compact[2];
  }

  /**
    `get_signal` as written, on a spaced BFP message from the BFP chat
    whose side text is "direction/side", returns a signal whose coin is
    the direction.
   */
  lemma GetSignalReadsDirection(header: string, direction: string, word: string, coin: string, entry: string,
                                targets: seq<string>, sl: string, e: real, ts: seq<real>, stop: real)
    requires EndsWith(header, "ENTRY POINT") && !HasChar(header, '\n')
    requires !HasChar(direction, '/') && !HasChar(direction, '#') && !HasChar(direction, '\n')
    requires !HasChar(word, '\n')
    requires !HasChar(coin, '/') && !HasChar(coin, '#') && !HasChar(coin, '\n')
    requires Word(entry) && Word(sl) && |targets| == 5 && forall k :: 0 <= k < 5 ==> Word(targets[k])
    requires ParseFloat(entry) == Some(e) && ParseFloat(sl) == Some(stop)
    requires |ts| == 5 && forall k :: 0 <= k < 5 ==> ParseFloat(targets[k]) == Some(ts[k])
    ensures GetSignal(BfpChanId, Join(SpacedLines(header, direction + "/" + word, coin, entry, targets, sl), "\n"), AsWritten)
         == Some(Signal(direction, e, stop, ts, BfpFraction, DefaultLeverage, true))
  {
    var text := Join(SpacedLines(header, direction + "/" + word, coin, entry, targets, sl), "\n");
    HasCharConcat(direction, "/", '\n');
    HasCharConcat(direction + "/", word, '\n');
    SpacedRoundTrip(header, direction + "/" + word, coin, entry, targets, sl, e, ts, stop);
    ParseBfpSpacedRulesDiffer(text);
    SpacedTextCoinAsWritten(header, direction, word, coin, entry, targets, sl);
  }

  /** On spaced text, the as-written parse is the corrected one with the coin read as written. */
  lemma ParseBfpSpacedRulesDiffer(text: string)
    ensures var w, c := ParseBfpSpaced(text, AsWritten), ParseBfpSpaced(text, Corrected);
      && (w.Success? <==> c.Success?)
      && (w.Failure? ==> w == c)
      && (w.Success? ==> w.value == c.value.(coin := CoinAsWritten(RawLines(text)[Spaced.coin])))
  {
    BfpRulesDiffer(RawLines(text), Spaced);
  }

  /** The coin line of the spaced layout, read as written, gives the direction. */
  lemma SpacedTextCoinAsWritten(header: string, direction: string, word: string, coin: string, entry: string,
                                targets: seq<string>, sl: string)
    requires EndsWith(header, "ENTRY POINT") && !HasChar(header, '\n')
    requires !HasChar(direction, '/') && !HasChar(direction, '#') && !HasChar(direction, '\n')
    requires !HasChar(word, '\n')
    requires !HasChar(coin, '/') && !HasChar(coin, '#') && !HasChar(coin, '\n')
    requires Word(entry) && Word(sl) && |targets| == 5 && forall k :: 0 <= k < 5 ==> Word(targets[k])
    ensures var lines := RawLines(Join(SpacedLines(header, direction + "/" + word, coin, entry, targets, sl), "\n"));
      |lines| == 10 && CoinAsWritten(lines[Spaced.coin]) == direction
  {
    var side := direction + "/" + word;
    HasCharConcat(direction, "/", '\n');
    HasCharConcat(direction + "/", word, '\n');
    var spaced := SpacedLines(header, side, coin, entry, targets, sl);
    SpacedLinesShape(header, side, coin, entry, targets, sl);
    SplitJoin(spaced, "\n");
    assert spaced[3] == direction + "/" + word + " #" + coin + "/" + "USDT";
    CoinAsWrittenReadsDirection(direction, word, coin, "USDT");
  }


  /**
    When the side text holds no '/', `get_signal` as written and with the
    corrected coin reading both return the values a spaced BFP message from
    the BFP chat was written from.
   */
  lemma GetSignalSlashFree(rule: CoinRule, header: string, side: string, coin: string, entry: string,
                           targets: seq<string>, sl: string, e: real, ts: seq<real>, stop: real)
    requires EndsWith(header, "ENTRY POINT") && !HasChar(header, '\n')
    requires !HasChar(side, '\n') && !HasChar(side, '/')
    requires !HasChar(coin, '/') && !HasChar(coin, '#') && !HasChar(coin, '\n')
    requires Word(entry) && Word(sl) && |targets| == 5 && forall k :: 0 <= k < 5 ==> Word(targets[k])
    requires ParseFloat(entry) == Some(e) && ParseFloat(sl) == Some(stop)
    requires |ts| == 5 && forall k :: 0 <= k < 5 ==> ParseFloat(targets[k]) == Some(ts[k])
    ensures GetSignal(BfpChanId, Join(SpacedLines(header, side, coin, entry, targets, sl), "\n"), rule)
         == Some(Signal(coin, e, stop, ts, BfpFraction, DefaultLeverage, true))
  {
    var text := Join(SpacedLines(header, side, coin, entry, targets, sl), "\n");
    SpacedRoundTrip(header, side, coin, entry, targets, sl, e, ts, stop);
    ParseBfpSpacedRulesDiffer(text);
    SpacedTextCoinSlashFree(header, side, coin, entry, targets, sl);
  }

  /** The coin line of the spaced layout, read as written, gives the coin when the side has no '/'. */
  lemma SpacedTextCoinSlashFree(header: string, side: string, coin: string, entry: string,
                                targets: seq<string>, sl: string)
    requires EndsWith(header, "ENTRY POINT") && !HasChar(header, '\n')
    requires !HasChar(side, '\n') && !HasChar(side, '/')
    requires !HasChar(coin, '/') && !HasChar(coin, '#') && !HasChar(coin, '\n')
    requires Word(entry) && Word(sl) && |targets| == 5 && forall k :: 0 <= k < 5 ==> Word(targets[k])
    ensures var lines := RawLines(Join(SpacedLines(header, side, coin, entry, targets, sl), "\n"));
      |lines| == 10 && CoinAsWritten(lines[Spaced.coin]) == coin
  {
    var spaced := SpacedLines(header, side, coin, entry, targets, sl);
    SpacedLinesShape(header, side, coin, entry, targets, sl);
    SplitJoin(spaced, "\n");
    HasCharConcat(side, " ", '/');
    assert spaced[3] == (side + " ") + "#" + coin + "/" + "USDT";
    CoinVersionsAgree(side + " ", coin, "USDT");
  }

  /**
    The older parser cannot read the compact layout: its stop-loss line
    number lies past the seven lines of that layout.
   */
  lemma SpacedRejectsCompact(rule: CoinRule, header: string, side: string, coin: string, entry: string,
                             targets: seq<string>, sl: string)
    requires |header| > 0 && !HasChar(header, '\n') && !HasChar(side, '\n') && !HasChar(coin, '\n')
    requires Word(entry) && Word(sl) && forall k :: 0 <= k < |targets| ==> Word(targets[k])
    ensures ParseBfpSpaced(Join(BfpLines(header, side, coin, entry, targets, sl), "\n"), rule).Failure?
  {
    var compact := BfpLines(header, side, coin, entry, targets, sl);
    BfpLinesPlain(header, side, coin, entry, targets, sl);
    SplitJoin(compact, "\n");
  }
}
