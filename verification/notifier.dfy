/** The Telegram trade notifications. Sending is left out; what is modelled
    is the Markdown text of the buy and sell messages. Number rendering
    (`{x:,.2f}`) is the caller-supplied function `money`. Every value the
    message carries sits between back-ticks, so the messages are written
    here as back-tick joins of their pieces. */
module Notifier {
  import opened Text

  const Tick: char := '`'

  const BuyTitle: string := "✅ **COMPRA EJECUTADA** ✅\n\n📈 *Activo:* "
  const EntryLabel: string := "\n💵 *Precio de Entrada:* "
  const StopLossLabel: string := "\n\n🛡️ *Stop-Loss:* "
  const TakeProfitLabel: string := "\n🎯 *Take-Profit:* "

  lemma BuyLabelsTickFree()
    ensures Tick !in BuyTitle && Tick !in EntryLabel && Tick !in StopLossLabel && Tick !in TakeProfitLabel
  {
    BuyTitleTickFree();
  }

  lemma BuyTitleTickFree()
    ensures Tick !in BuyTitle
  {
  }

  /** The text between the back-ticks of a buy message. */
  function BuyPieces(symbol: string, price: real, sl: real, tp: real, money: real -> string): seq<string> {
    [ BuyTitle, symbol, EntryLabel, "$" + money(price), StopLossLabel, "$" + money(sl),
      TakeProfitLabel, "$" + money(tp), "" ]
  }

  /** `format_buy_message`. */
  function FormatBuyMessage(symbol: string, price: real, sl: real, tp: real, money: real -> string): (m: string)
    ensures StartsWith(m, BuyTitle + "`" + symbol)
    ensures EndsWith(m, "$" + money(tp) + "`")
  {
    var p := BuyPieces(symbol, price, sl, tp, money);
    var m := Join(p, [Tick]);
    JoinStartsWith(p, [Tick]);
    JoinEndsWith(p, [Tick]);
    assert p[7] + [Tick] + p[8] == "$" + money(tp) + "`";
    m
  }

  /** No buy piece contains a back-tick when the caller's values do not. */
  lemma BuyPiecesTickFree(symbol: string, price: real, sl: real, tp: real, money: real -> string)
    requires Tick !in symbol && Tick !in money(price) && Tick !in money(sl) && Tick !in money(tp)
    ensures forall k :: 0 <= k < 9 ==> Tick !in BuyPieces(symbol, price, sl, tp, money)[k]
  {
    BuyLabelsTickFree();
  }

  /** Reading a buy message back: split on back-ticks, the symbol, entry,
      stop-loss and take-profit are pieces 1, 3, 5 and 7, in that order,
      whenever none of them contains a back-tick. */
  lemma BuyMessageFields(symbol: string, price: real, sl: real, tp: real, money: real -> string)
    requires Tick !in symbol && Tick !in money(price) && Tick !in money(sl) && Tick !in money(tp)
    ensures var f := Split(FormatBuyMessage(symbol, price, sl, tp, money), [Tick]);
            |f| == 9 && f[1] == symbol && f[3] == "$" + money(price)
            && f[5] == "$" + money(sl) && f[7] == "$" + money(tp)
  {
    var p := BuyPieces(symbol, price, sl, tp, money);
    BuyPiecesTickFree(symbol, price, sl, tp, money);
    JoinSplit(p, Tick);
  }

  /** 🎉 for a take-profit, 🔥 for every other reason. */
  function SellEmoji(reason: string): (e: string)
    ensures e == "🎉" <==> reason == "Take-Profit"
    ensures e == "🔥" <==> reason != "Take-Profit"
  {
    if reason == "Take-Profit" then "🎉" else "🔥"
  }

  /** "Ganancia" for a zero or positive P&L, "Pérdida" for a negative one. */
  function PnlLabel(pnl: real): (l: string)
    ensures l == "*Ganancia:* " <==> pnl >= 0.0
    ensures l == "*Pérdida:* " <==> pnl < 0.0
  {
    if pnl >= 0.0 then "*Ganancia:* " else "*Pérdida:* "
  }

  const SellTitle: string := " **VENTA EJECUTADA** "
  const SellAsset: string := "\n\n📉 *Activo:* "
  const ReasonLabel: string := "\n➡️ *Motivo:* _"
  const Reached: string := " Alcanzado_"
  const ExitLabel: string := "\n💵 *Precio de Salida:* "
  const ResultLabel: string := "\n💰 *Resultado (P&L):* "

  lemma SellLabelsTickFree()
    ensures Tick !in SellTitle && Tick !in SellAsset && Tick !in ReasonLabel
    ensures Tick !in Reached && Tick !in ExitLabel && Tick !in ResultLabel
  {
    SellHeadTickFree();
  }

  lemma SellHeadTickFree()
    ensures Tick !in SellTitle && Tick !in SellAsset && Tick !in ReasonLabel
  {
  }

  /** The text between the back-ticks of a sell message; the reason is
      written in italics followed by "Alcanzado". */
  function SellPieces(symbol: string, price: real, reason: string, pnl: real, money: real -> string): seq<string> {
    var e := SellEmoji(reason);
    [ e + SellTitle + e + SellAsset, symbol,
      ReasonLabel + reason + Reached + ExitLabel, "$" + money(price),
      ResultLabel + PnlLabel(pnl), "$" + money(pnl),
      "" ]
  }

  /** `format_sell_message`. */
  function FormatSellMessage(symbol: string, price: real, reason: string, pnl: real, money: real -> string): (m: string)
    ensures StartsWith(m, SellEmoji(reason) + SellTitle + SellEmoji(reason))
    ensures EndsWith(m, "$" + money(pnl) + "`")
  {
    var p := SellPieces(symbol, price, reason, pnl, money);
    var m := Join(p, [Tick]);
    JoinStartsWith(p, [Tick]);
    JoinEndsWith(p, [Tick]);
    var e := SellEmoji(reason);
    var head := e + SellTitle + e;
    assert (p[0] + [Tick] + p[1])[..|head|] == head;
    assert p[5] + [Tick] + p[6] == "$" + money(pnl) + "`";
    m
  }

  /** No sell piece contains a back-tick when the caller's values do not. */
  lemma SellPiecesTickFree(symbol: string, price: real, reason: string, pnl: real, money: real -> string)
    requires Tick !in symbol && Tick !in reason && Tick !in money(price) && Tick !in money(pnl)
    ensures forall k :: 0 <= k < 7 ==> Tick !in SellPieces(symbol, price, reason, pnl, money)[k]
  {
    SellLabelsTickFree();
    var e := SellEmoji(reason);
    assert Tick !in e && Tick !in PnlLabel(pnl);
  }

  /** Reading a sell message back: the symbol is piece 1, the reason appears
      between "Motivo: _" and " Alcanzado_" in piece 2, the exit price is
      piece 3, piece 4 carries the P&L label and the P&L is piece 5. */
  lemma SellMessageFields(symbol: string, price: real, reason: string, pnl: real, money: real -> string)
    requires Tick !in symbol && Tick !in reason && Tick !in money(price) && Tick !in money(pnl)
    ensures var f := Split(FormatSellMessage(symbol, price, reason, pnl, money), [Tick]);
            && |f| == 7 && f[1] == symbol && f[3] == "$" + money(price) && f[5] == "$" + money(pnl)
            && f[2] == ReasonLabel + reason + Reached + ExitLabel
            && f[4] == ResultLabel + PnlLabel(pnl)
  {
    var p := SellPieces(symbol, price, reason, pnl, money);
    SellPiecesTickFree(symbol, price, reason, pnl, money);
    JoinSplit(p, Tick);
  }
}
