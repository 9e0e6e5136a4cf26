/** Broker transactions as the history client delivers them, and the journal events made of them. */
module Transactions {
  import opened Basics
  import opened Commission

  /** A decoded payload, kept whole as evidence.  `Text` is a string that is not itself JSON;
      `Encoded` is a string holding a JSON object or array. */
  datatype Json =
    | Null
    | Scalar
    | Text(text: string)
    | Encoded(decoded: Json)
    | Object(fields: seq<(string, Json)>)
    | Array(items: seq<Json>)

  datatype OpenedTrade = OpenedTrade(tradeId: string, units: Option<real>, price: Option<real>)

  datatype ClosedTrade = ClosedTrade(
    tradeId: string, units: real, price: Option<real>, realizedPL: real, financing: real)

  datatype PositionFinancing = PositionFinancing(instrument: Option<string>, financing: real)

  /** What a record's or an event's instrument must look like: two alphanumeric parts, whatever
      their case, joined by one underscore. */
  predicate ValidSymbol(symbol: string) {
    var text := Upper(Strip(symbol));
    exists i :: 0 < i < |text| - 1 && IsUnderscore(text[i]) && forall j :: 0 <= j < |text| && j != i ==> IsAlphanumeric(text[j])
  }

  predicate IsUnderscore(c: char) {
    c == '_'
  }

  predicate IsAlphanumeric(c: char) {
    'A' <= c <= 'Z' || '0' <= c <= '9'
  }

  /** `account` and `instrument` are empty when the payload has none; `dated` says whether its
      time text can be parsed, `time` is when the broker booked it. */
  datatype Transaction =
    | OrderFill(
        id: nat, time: int, account: string, dated: bool, instrument: string, reason: Option<string>, units: real, price: Option<real>,
        commission: Decimal, tradeOpened: Option<OpenedTrade>, tradesClosed: seq<ClosedTrade>,
        tradeReduced: Option<ClosedTrade>, raw: Json)
    | DailyFinancing(id: nat, time: int, account: string, dated: bool, financing: real, positions: seq<PositionFinancing>)
    | OtherTransaction(id: nat, time: int)
  {
    /** The type filter sent with every history request. */
    predicate Requested() {
      !OtherTransaction?
    }
  }

  datatype Kind = Open | Close | PartialClose
  {
    function Name(): (name: string)
      ensures forall i :: 0 <= i < |name| ==> name[i] != ':'
    {
      match this
      case Open => "OPEN"
      case Close => "CLOSE"
      case PartialClose => "PARTIAL_CLOSE"
    }

    predicate Closes() {
      Close? || PartialClose?
    }
  }

  datatype Side = Long | Short

  datatype Event =
    | TradeEvent(
        id: string, transactionId: nat, kind: Kind, instrument: string, tradeId: string, units: real, side: Side,
        price: Option<real>, realizedPL: real, financing: real, commission: real, netRealizedPL: real,
        time: int, reason: Option<string>, raw: Json)
    | FinancingEvent(id: string, transactionId: nat, about: Option<string>, financing: real, time: int)
  {
    function Label(): string {
      if TradeEvent? then kind.Name() else "DAILY_FINANCING"
    }

    predicate ClosesTrade(trade: string) {
      TradeEvent? && kind.Close? && tradeId == trade
    }
  }
}
