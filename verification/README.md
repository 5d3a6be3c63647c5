# teletrader signal core in Dafny

teletrader reads trading signals that Telegram channels post as free
text, turns each into a `Signal` (coin, entry, stop-loss, take-profit
targets, position fraction, leverage, wait-for-entry flag), rescales its
prices to the exchange's mark price, and places Binance futures orders
for it. This project models the pure core of that pipeline:

- `Scale` and `Signals` (trader/signal.py `Signal`): the precision factor
  `_factor`, `autocorrect`, `is_long`/`is_short` and `max_entry`. The
  `Signal` class in trader/__init__.py is the same code with different
  line breaks, so it is modelled once.
- `Channels` (trader/signal.py `BFP`, `MVIP`, `CHANNELS`): the two
  provider grammars. Blank lines are collapsed, the text is split into
  lines, the structural assertions are checked, and the coin, entry,
  targets and stop-loss are read from fixed line and token positions.
- `Legacy` (trader/__init__.py): the older BFP grammar, the one
  `get_signal` applies. It has no blank-line collapse, so it reads the
  spaced layout by fixed line numbers. Also the MVIP stub and
  `get_signal`.
- `Orders` (trader/__init__.py): client order ids, the entry order
  `place_order` submits, and the stop-loss and take-profit orders
  `_place_collection_orders` adds after a market entry.
- `Text`, `Decimal` and `Wrappers`: the Python behaviour the parsers rely
  on.
  - `str.split`, `join`, `replace`, `startswith`, `endswith` and `in`.
  - A decimal-literal reading of `float()`.
  - Exceptions as `Result` failures that carry the Python error kind.
    Failures are raised in the same order the source evaluates its
    expressions.

Every parser takes a `CoinRule`: `AsWritten` reads the coin with the
source's own expression, `Corrected` with the reading the providers'
layout needs (see Findings). The other fields do not depend on the rule.

Prices are exact reals. The mark price, the balance, the uuid text and
the exchange's rounding rules for a symbol are parameters.

## Model

| member | source | states |
|---|---|---|
| Scale.Factor | trader/signal.py:35-47 | the factor returned is one of 10^-6 … 10^0, so it lies in (0, 1] |
| Scale.CandidateFormula | trader/signal.py:39-40 | the i-th candidate the loop tries is 1 / 10^(6 - i) |
| Scale.CandidateValues | trader/signal.py:39-40 | the seven candidates are exactly 0.000001, 0.00001, …, 0.1, 1.0 |
| Scale.CandidateIncreasing | trader/signal.py:39-40 | candidates strictly increase with the loop index |
| Scale.FactorArgmin | trader/signal.py:35-47 | for a positive mark price, the early-breaking scan still returns the leftmost minimiser of the relative distance over all seven candidates |
| Scale.FactorIsLeftmostArgmin | trader/signal.py:35-47 | a candidate is the returned factor if and only if it is the leftmost minimiser |
| Scale.FactorMinimises | trader/signal.py:37-46 | no candidate brings the scaled price relatively closer to the mark than the chosen factor |
| Scale.FactorSmallestOnTies | trader/signal.py:42-46 | since the comparison is strict, a tie is resolved towards the smaller factor |
| Scale.FactorSettles | trader/signal.py:35-47 | once a price has been rescaled by a factor above 10^-6, scanning it again picks 1 |
| Signals.MaxEntry | trader/signal.py:24-27 | the highest acceptable entry lies between the entry and the first target and splits that interval 1:4 |
| Signals.Direction | trader/signal.py:16-22 | exactly one of long and short holds, and a stop-loss at the entry counts as short |
| Signals.Rescale | trader/signal.py:30-33 | a rescaled price is the original times one of the seven factors |
| Signals.Autocorrect | trader/signal.py:29-33 | entry, stop-loss and every target are each rescaled by their own factor; coin, fraction, leverage, wait flag and target count are kept |
| Signals.RescaleShrinks | trader/signal.py:29-33 | rescaling never enlarges a price's magnitude and never changes its sign |
| Signals.RescaleNearest | trader/signal.py:29-47 | the rescaled price is the one of p·10^-6 … p·10^0 relatively nearest the mark, and the smallest of them on ties |
| Signals.RescaleSettles | trader/signal.py:29-47 | rescaling an already rescaled price again changes nothing unless the factor was 10^-6 |
| Signals.AutocorrectIdempotent | trader/signal.py:29-33 | correcting twice with the same mark price equals correcting once when no price needed the extreme factor |
| Decimal.ParseFloat | trader/signal.py:64 | `float()` succeeds only on non-empty text; a negative result needs a leading '-', and a leading '-' never gives a positive value |
| Decimal.NatTextRoundTrip | trader/signal.py:64 | `float(str(n)) == n` for every natural number |
| Decimal.NegativeRoundTrip | trader/signal.py:64 | `float("-" + str(n)) == -n` |
| Decimal.FractionRoundTrip | trader/signal.py:64 | `float(str(n) + "." + digits)` is n plus the digits over 10^len |
| Text.JoinSplit | trader/signal.py:60 | joining the pieces of a split with the separator gives back the text |
| Text.SplitJoin | trader/signal.py:60 | splitting a join of separator-free pieces gives back the pieces |
| Text.SplitAround | trader/signal.py:63 | splitting `a + sep + b` on a one-character separator gives the pieces of `a` followed by the pieces of `b` |
| Text.ContainsAt | trader/signal.py:79-80 | `p in s` holds exactly when `p` starts at some position of `s` |
| Text.JoinContains | trader/signal.py:76 | a word that occurs in one line occurs in the joined text |
| Text.CollapseKeepsJoin | trader/signal.py:59 | the blank-line collapse leaves text without blank lines unchanged |
| Text.CollapseRemovesBlankLines | trader/signal.py:59-60 | the collapse removes exactly the isolated empty lines |
| Text.ReplaceIsJoinOfSplit | trader/signal.py:59 | `s.replace(p, r)` equals `r.join(s.split(p))`, an independent definition of the replacement |
| Channels.CoinAsWritten | trader/signal.py:63 | the coin read the source's way has no '/' or '#' |
| Channels.CoinAsWrittenReadsDirection | trader/signal.py:63 | on a "direction/side #COIN/QUOTE" line the source's expression returns the direction, not the coin |
| Channels.CoinAsWrittenOnBfpLine | trader/signal.py:63 | on "Long/Buy #BLZ/USDT" the source's expression gives "Long" and the corrected one gives "BLZ" |
| Channels.CoinOf | trader/signal.py:63 | the coin has no '/' or '#' |
| Channels.CoinOfReads | trader/signal.py:63 | the corrected coin is the text between the last '#' and the '/' that follows it |
| Channels.CoinVersionsAgree | trader/signal.py:81 | when no '/' precedes the '#' (the MVIP header), both readings give the coin |
| Channels.Numbers | trader/signal.py:66 | `map(float, tokens)` succeeds if and only if every token is a number, and keeps order and length |
| Channels.TargetTokens | trader/signal.py:65-66 | the list display raises IndexError if and only if the line has fewer than ten tokens, else it picks tokens 1, 3, 5, 7, 9 |
| Channels.BfpTargets | trader/signal.py:65-66 | the five targets are the numbers at tokens 1, 3, 5, 7, 9, and parsing fails otherwise |
| Channels.LinesRejoin | trader/signal.py:59-60 | there is always at least one line, no line holds a newline, and joining the lines with newlines gives the collapsed text back |
| Channels.BfpBody | trader/signal.py:63-68 | the body fails if and only if a line is missing or a number does not parse, never with AssertionError; on success the signal holds the coin read under the given rule and the numbers read, with fraction 0.04, leverage 10 and wait flag set |
| Channels.BfpParseLines | trader/signal.py:61-68 | a non-"Signal" first line raises AssertionError; after it, a missing second line raises IndexError and a second line not ending in "ENTRY POINT" raises AssertionError; success holds if and only if both header checks, the shape and every number pass, and the signal holds what was read under the given coin rule |
| Channels.BfpRulesDiffer | trader/signal.py:61-68 | the source's coin reading and the corrected one succeed together, fail with the same error, and on success give signals that differ only in the coin, which is the source's expression applied to the coin line |
| Channels.BfpReadsAgree | trader/signal.py:63-67 | two parses that read the same four lines produce the same signal |
| Channels.ParseBfp | trader/signal.py:58-68 | `BFP.parse` succeeds if and only if the collapsed lines meet the layout, and then returns exactly what it read, the coin under the given rule; the two header checks raise AssertionError, and a text of one line raises IndexError at the second |
| Channels.ParseBfpRulesDiffer | trader/signal.py:58-68 | on any text, `BFP.parse` as written is the corrected parse with only the coin replaced by the source's reading of line 2 |
| Channels.Slice | trader/signal.py:83 | `lines[4:7]` clamps to the list |
| Channels.MvipTargets | trader/signal.py:83 | targets are the last tokens of lines 4 to 6, in order; parsing fails if one is not a number |
| Channels.ParseMvip | trader/signal.py:75-85 | no "Leverage" anywhere, or no "USDT" in line 0, raises AssertionError; past those checks, a single line raises IndexError and a second line without "Entry Zone" raises AssertionError, and every other failure is IndexError or ValueError; success holds if and only if the layout and every number pass; the signal has the coin under the given rule, default fraction and leverage and the upper end of the entry zone as entry |
| Channels.ChannelFor | trader/signal.py:54-88 | a chat id selects the entry of `CHANNELS` whose `chan_id` it is, and ids other than the BFP and MVIP ones select none |
| Channels.Parse | trader/signal.py:54-88 | a channel's parse keeps its provider's conventions: BFP signals wait for entry with fraction 0.04 and five targets, MVIP signals enter at market with the default fraction and three targets, both with leverage 10; each raises AssertionError on its first failed marker check; BFP succeeds if and only if the collapsed lines pass both header checks, the shape and every number, MVIP if and only if "Leverage" is present and the layout and numbers pass, and each returns exactly what its parser reads, with the corrected coin |
| Channels.LinesOfJoin | trader/signal.py:59-60 | collapsing and splitting the text of non-empty, newline-free lines gives back the lines |
| Channels.LastTokenAfter | trader/signal.py:64 | the last token of `prefix + " " + w` is `w` |
| Channels.DashListTokens | trader/signal.py:65-66 | a " - " list splits on spaces into the items alternating with dashes |
| Channels.TargetsLineTokens | trader/signal.py:65-66 | on "Targets: t0 - … - t4", token 2i+1 is the i-th target |
| Channels.BfpFields | trader/signal.py:61-67 | the compact BFP layout carries both header markers and puts the coin, the entry, the five targets and the stop where the parser reads them |
| Channels.BfpRoundTrip | trader/signal.py:58-68 | with the corrected coin reading, a message written in the compact BFP layout parses back to the coin, prices and defaults it was written from |
| Channels.BfpMessageRoundTrip | trader/signal.py:58-68 | the same holds when the coin line carries more text after the pair and more lines follow the stop-loss, as in the providers' posts |
| Channels.BfpRoundTripSlashFree | trader/signal.py:58-68 | when the side text has no '/', the compact layout parses back to the values it was written from under either coin reading |
| Channels.BfpAsWrittenReadsDirection | trader/signal.py:58-68 | `BFP.parse` as written, on a compact message whose side text is "direction/side", returns the direction as the coin and every other field as written |
| Channels.BfpLinesRead | trader/signal.py:61-67 | the compact BFP layout meets the header, shape and numeric conditions and, with the corrected coin reading, reads back its values |
| Channels.MvipMarkers | trader/signal.py:76-80 | the MVIP layout carries the three words the parser asserts on |
| Channels.MvipFields | trader/signal.py:81-84 | the MVIP layout puts the coin, the upper entry, the targets and the stop where the parser reads them |
| Channels.MvipRoundTrip | trader/signal.py:75-85 | under either coin reading, a message written in the MVIP layout parses back to its coin, upper entry, three targets and stop |
| Channels.ParseReadsBfpMessage | trader/signal.py:54-68 | the BFP channel's parse returns the waiting, 4% signal a BFP-layout message was written from |
| Channels.ParseReadsMvipMessage | trader/signal.py:71-85 | the MVIP channel's parse returns the market signal with the defaults that an MVIP-layout message was written from |
| Legacy.ParseBfpSpaced | trader/__init__.py:121-131 | the older parser reads lines 3, 5, 7, 9 of the raw newline split, the coin under the given rule; success holds if and only if header, shape and numbers pass; the two header checks raise AssertionError, and a text of one line raises IndexError at the second |
| Legacy.ParseBfpSpacedRulesDiffer | trader/__init__.py:121-131 | on any text, the older parser as written is its corrected version with only the coin replaced by the source's reading of line 3 |
| Legacy.ParseMvipStub | trader/__init__.py:137-139 | the stub raises AssertionError if and only if "Leverage" is missing, and otherwise returns nothing |
| Legacy.GetSignal | trader/__init__.py:179-187 | a signal comes back if and only if the chat is the registered BFP chat and the older parser succeeds under the given coin rule; other chats, MVIP included, give nothing |
| Legacy.SpacedWithoutBlanks | trader/__init__.py:123-130 | dropping the blank lines of the spaced layout gives the compact layout |
| Legacy.SpacedRoundTrip | trader/__init__.py:121-131 | with the corrected coin reading, a message written in the spaced layout parses back to the values it was written from |
| Legacy.GetSignalSlashFree | trader/__init__.py:179-187 | when the side text has no '/', `get_signal` returns the values a spaced message from the BFP chat was written from, under either coin reading |
| Legacy.GetSignalReadsDirection | trader/__init__.py:179-187 | `get_signal` as written, on a spaced message from the BFP chat whose side text is "direction/side", returns the direction as the coin and every other field as written |
| Legacy.CollapseReadsSpaced | trader/signal.py:58-68 | the newer parser, thanks to the collapse, reads the spaced layout exactly as the older parser does, under either coin reading |
| Legacy.SpacedRejectsCompact | trader/__init__.py:123-130 | the older parser fails on every message in the compact layout |
| Orders.RandomId | trader/__init__.py:31-34 | the id starts with the prefix and keeps the uuid text after the first `len(prefix)` characters |
| Orders.KindOf | trader/__init__.py:52-66 | an id has a kind if and only if it starts with that kind's prefix |
| Orders.NewIdClassified | trader/__init__.py:36-66 | a new id is recognised as its own kind and as no other |
| Orders.Opposite | trader/__init__.py:256 | the closing side differs from the entry side |
| Orders.EntryOrder | trader/__init__.py:189-221 | no price gives no order; a zero price or leverage raises ZeroDivisionError; no targets raise IndexError; a wait entry with a price, a non-zero leverage and targets is always submitted, as a STOP order at the corrected entry capped at the rounded maximum entry; the only failures are ZeroDivisionError and IndexError; a market entry is abandoned if and only if the price has passed the maximum entry; the side is BUY if and only if the corrected signal is long; the quantity is balance × fraction × leverage / price, rounded |
| Orders.WaitEntrySubmitted | trader/__init__.py:203-218 | a wait entry with a price, a non-zero leverage and targets is submitted whatever the price: a STOP order with a wait id, triggering at the rounded corrected entry, whose limit is the rounded maximum entry, which lies between the corrected entry and the first target |
| Orders.MarketEntryWithinBound | trader/__init__.py:203-221 | for a market signal with a price, a leverage and targets, an entry is submitted if and only if the price has not passed the maximum entry of the corrected signal, and is otherwise abandoned; a submitted long buys at or below that bound, a submitted short sells at or above it |
| Orders.StopLossOrder | trader/__init__.py:252-261 | no stop order if one exists; otherwise a STOP_MARKET on the opposite side at the rounded stop-loss that closes the position |
| Orders.TargetOrder | trader/__init__.py:284-300 | the order for target i is on the opposite side with a take-profit id; it is a GTC limit at the rounded target for an equal rounded share, with no stop price, unless i is the parent's last target, when it is a TAKE_PROFIT_MARKET at the rounded target that closes the position and carries no quantity or price |
| Orders.TargetPlan | trader/__init__.py:276-300 | nothing if take-profit orders exist; otherwise one order per target, for at most five targets. Each is on the opposite side. Each is a GTC limit for an equal share with no stop price, except the parent's last target, which is a closing TAKE_PROFIT_MARKET with no quantity or price. An order is GTC if and only if it is a limit. A closing order exists if and only if there are one to five targets |
| Orders.MarketEntryProtected | trader/__init__.py:245-261 | when a market entry is submitted, the stop-loss order that follows sells a long and buys back a short, at the rounded corrected stop-loss, closing the position |

## Left out

- I/O and concurrency are not modelled.
  - Telegram, the Binance client and streams, locks and logging.
  - The ten one-second waits for a price (the price is an `Option` parameter).
  - The leverage change call, the state dictionary writes and the one-day expiry.
  - `_handle_event`, `_subscribe_futures_user`, `_resubscribe_futures` and `init`.
  - trader/telegram.py, trader/user_stream.py, trader/utils.py, trader/logger.py, trader/errors.py and main.py.
- Exchange failures are not modelled.
  - `futures_change_leverage` (trader/__init__.py:202) sits outside any `try`, so its failure propagates out of `place_order`.
  - A failed entry `futures_create_order` is logged and swallowed (trader/__init__.py:241-243). For a market entry `_place_collection_orders` still runs, and its lookup of the missing order raises KeyError (trader/__init__.py:250).
  - Failed stop-loss and take-profit `futures_create_order` calls are logged and swallowed.
  - `get_signal` reads `self.client.FUTURES_URL` (trader/__init__.py:180) before its `try`, so an error there would propagate rather than be logged. The client is not modelled, so `Legacy.GetSignal` starts at the channel loop.
  - The take-profit ids appended to `t_ord` after each successful call are not modelled either.
- `_round_price` and `_round_qty` read exchange metadata. Here they are function parameters.
- `uuid.uuid4()` is a string parameter.
- The filled quantity `origQty` comes from the exchange response. Here it is a parameter.
- `float()` is modelled as decimal literals only: optional sign, digits, optional fraction, at least one digit. Exponents, surrounding whitespace, underscores, `inf` and `nan` are not accepted.
- Prices are exact reals. Binary floating-point rounding is not modelled, so `1 / 10**k` and the distance comparisons are exact here.
- `__repr__` is not modelled.
- trader/test_signal.py exercises a later API (entry lists, risk), so it is used only as evidence of the providers' message layouts.
- Scale.Factor: requires a non-zero mark price, where the source raises ZeroDivisionError. In `place_order` a zero price has already raised at the quantity computation.
- Signals.Rescale: requires a non-zero mark price, for the same reason.
- Signals.Autocorrect: requires a non-zero mark price, for the same reason.
- Scale.FactorArgmin: is stated only for a positive mark price. For a negative one, the scaled distance is not convex along the candidates.
- Channels.BfpRoundTrip: is stated for the corrected coin reading. For the source's reading, Channels.BfpRoundTripSlashFree covers sides without '/', and Channels.BfpAsWrittenReadsDirection covers "direction/side" lines, where the coin comes back as the direction.
- Channels.BfpLinesRead: is stated for the corrected coin reading, for the same reason.
- Legacy.SpacedRoundTrip: is stated for the corrected coin reading. For the source's reading, Legacy.GetSignalSlashFree and Legacy.GetSignalReadsDirection cover the same two cases.
- Channels.Parse: dispatches with the corrected coin reading. Channels.ParseBfpRulesDiffer and Channels.CoinVersionsAgree relate it to the source's reading.

## Findings

| source | as written | input that shows it | evidently intended | confidence | as-written member | corrected member |
|---|---|---|---|---|---|---|
| trader/signal.py:63 | `lines[2].split("/")[0].split("#")[-1]` keeps only the text before the first '/', and then takes what follows the last '#' in it | the BFP coin line "Long/Buy #BLZ/USDT" gives "Long" (the same expression is at trader/signal.py:81 and trader/__init__.py:126) | the coin "BLZ": the text after the last '#' up to the next '/', as the providers' layout and the expected signal in trader/test_signal.py:69-81 show | medium, not executed | Channels.CoinAsWritten, shown by Channels.CoinAsWrittenOnBfpLine, and the parsers under `AsWritten`: Channels.BfpAsWrittenReadsDirection and Legacy.GetSignalReadsDirection | Channels.CoinOf, proved by Channels.CoinOfReads, and the parsers under `Corrected`: Channels.BfpRoundTrip and Legacy.SpacedRoundTrip |

Not a finding, but visible in Orders.TargetPlan's contract: `_place_collection_orders` places orders only for the first five targets. It tests for the last target against the full list, though. A parent with more than five targets therefore gets no closing take-profit order, and its limit orders cover only five shares of the quantity. Neither parser here produces more than five targets.
