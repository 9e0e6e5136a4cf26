/** Classification of a trade's close from broker evidence. */
module CloseReasons {
  import opened Basics
  import opened Transactions

  datatype CloseReason = SlHit | TpHit | Mit | Manual

  predicate Contains(s: string, part: string) {
    exists i :: 0 <= i <= |s| - |part| && OccursAt(s, part, i)
  }

  predicate OccursAt(s: string, part: string, i: nat) {
    i + |part| <= |s| && s[i..i + |part|] == part
  }

  /** A text contains a part when it is that part with something before and after it. */
  lemma ContainsIff(s: string, part: string)
    ensures Contains(s, part) <==> exists a: string, b: string :: IsMadeOf(s, a, part, b)
  {
    if Contains(s, part) {
      var i :| 0 <= i <= |s| - |part| && OccursAt(s, part, i);
      assert IsMadeOf(s, s[..i], part, s[i + |part|..]);
    }
    forall a: string, b: string | IsMadeOf(s, a, part, b) ensures Contains(s, part) {
      assert OccursAt(s, part, |a|);
    }
  }

  predicate IsMadeOf(s: string, a: string, part: string, b: string) {
    s == a + part + b
  }

  predicate IsEvidenceKey(key: string) {
    Strip(key) in {"reason", "type", "orderType", "order_type"}
  }

  predicate IsContainer(value: Json) {
    value.Object? || value.Array?
  }

  function TextEvidence(text: string): seq<string> {
    var stripped := Strip(text);
    if stripped == "" then [] else [Upper(stripped)]
  }

  /** Every text the collector picks up, in the order it meets them. */
  function Evidence(source: Json): seq<string>
    decreases source, 1, 0
  {
    match source
    case Text(text) => TextEvidence(text)
    case Encoded(decoded) => Evidence(decoded)
    case Object(fields) => FieldEvidence(source, |fields|)
    case Array(items) => ItemEvidence(source, |items|)
    case _ => []
  }

  function FieldEvidence(source: Json, n: nat): seq<string>
    requires source.Object? && n <= |source.fields|
    decreases source, 0, n
  {
    if n == 0 then []
    else
      var (key, value) := source.fields[n - 1];
      FieldEvidence(source, n - 1)
      + (if IsEvidenceKey(key) || IsContainer(value) then Evidence(value) else [])
  }

  function ItemEvidence(source: Json, n: nat): seq<string>
    requires source.Array? && n <= |source.items|
    decreases source, 0, n
  {
    if n == 0 then [] else ItemEvidence(source, n - 1) + Evidence(source.items[n - 1])
  }

  method CollectEvidence(source: Json) returns (collected: seq<string>)
    ensures collected == Evidence(source)
    decreases source
  {
    collected := [];
    match source {
      case Text(text) => collected := TextEvidence(text);
      case Encoded(decoded) => collected := CollectEvidence(decoded);
      case Object(fields) =>
        for i := 0 to |fields|
          invariant collected == FieldEvidence(source, i)
        {
          var (key, value) := fields[i];
          if IsEvidenceKey(key) {
            var more := CollectEvidence(value);
            collected := collected + more;
          } else if IsContainer(value) {
            var more := CollectEvidence(value);
            collected := collected + more;
          }
        }
      case Array(items) =>
        for i := 0 to |items|
          invariant collected == ItemEvidence(source, i)
        {
          var more := CollectEvidence(items[i]);
          collected := collected + more;
        }
      case _ =>
    }
  }

  /** A payload says a text when the text sits in it at the top, in any item of a list, under
      an evidence key, or inside a container under any key. */
  ghost predicate Says(source: Json, item: string)
    decreases source
  {
    match source
    case Text(text) => Strip(text) != "" && item == Upper(Strip(text))
    case Encoded(decoded) => Says(decoded, item)
    case Object(fields) =>
      exists i :: 0 <= i < |fields| && Says(fields[i].1, item) && (IsEvidenceKey(fields[i].0) || IsContainer(fields[i].1))
    case Array(items) => exists i :: 0 <= i < |items| && Says(items[i], item)
    case _ => false
  }

  lemma {:induction false} CollectorFindsExactlyWhatIsSaid(source: Json, item: string)
    ensures item in Evidence(source) <==> Says(source, item)
    decreases source, 1, 0
  {
    match source
    case Encoded(decoded) => CollectorFindsExactlyWhatIsSaid(decoded, item);
    case Object(fields) => FieldsSay(source, |fields|, item);
    case Array(items) => ItemsSay(source, |items|, item);
    case _ =>
  }

  lemma {:induction false} FieldsSay(source: Json, n: nat, item: string)
    requires source.Object? && n <= |source.fields|
    ensures item in FieldEvidence(source, n) <==>
            exists i :: 0 <= i < n && Says(source.fields[i].1, item) &&
                        (IsEvidenceKey(source.fields[i].0) || IsContainer(source.fields[i].1))
    decreases source, 0, n
  {
    if n > 0 {
      FieldsSay(source, n - 1, item);
      CollectorFindsExactlyWhatIsSaid(source.fields[n - 1].1, item);
    }
  }

  lemma {:induction false} ItemsSay(source: Json, n: nat, item: string)
    requires source.Array? && n <= |source.items|
    ensures item in ItemEvidence(source, n) <==> exists i :: 0 <= i < n && Says(source.items[i], item)
    decreases source, 0, n
  {
    if n > 0 {
      ItemsSay(source, n - 1, item);
      CollectorFindsExactlyWhatIsSaid(source.items[n - 1], item);
    }
  }

  const TOLERANCE: real := 0.000001

  predicate MatchesLevel(closePrice: real, level: Option<real>) {
    level.Some? &&
    Abs(closePrice - level.value) <= Max(Abs(closePrice) * TOLERANCE, TOLERANCE)
  }

  /** Within a millionth of the price on either side, or within a millionth of one where the
      price itself is smaller than that. */
  predicate NearLevel(closePrice: real, level: Option<real>) {
    var reach := if -1.0 <= closePrice <= 1.0 then 1.0 else if closePrice < 0.0 then -closePrice else closePrice;
    level.Some? && -reach <= 1_000_000.0 * (closePrice - level.value) <= reach
  }

  lemma LevelIsAnInterval(closePrice: real, level: Option<real>)
    ensures MatchesLevel(closePrice, level) <==> NearLevel(closePrice, level)
  {
  }

  function ReasonText(reason: Option<string>): Json {
    if reason.Some? then Text(reason.value) else Null
  }

  function AllEvidence(rawReason: Option<string>, sources: seq<Json>): seq<string> {
    if sources == [] then Evidence(ReasonText(rawReason))
    else AllEvidence(rawReason, sources[..|sources| - 1]) + Evidence(sources[|sources| - 1])
  }

  predicate Mentions(evidence: seq<string>, part: string) {
    exists i :: 0 <= i < |evidence| && Contains(evidence[i], part)
  }

  function InferCloseReason(
    closePrice: real, slPrice: Option<real>, tpPrice: Option<real>, rawReason: Option<string>, sources: seq<Json>)
    : CloseReason
  {
    var evidence := AllEvidence(rawReason, sources);
    if Mentions(evidence, "STOP") || MatchesLevel(closePrice, slPrice) then SlHit
    else if Mentions(evidence, "TAKE") || Mentions(evidence, "TP") || MatchesLevel(closePrice, tpPrice) then TpHit
    else if Mentions(evidence, "MARKET_IF_TOUCHED") then Mit
    else Manual
  }

  /** Some text said by the raw reason or by one of the payloads contains a part. */
  ghost predicate Hints(rawReason: Option<string>, sources: seq<Json>, part: string) {
    HintsOne(ReasonText(rawReason), part) || exists i :: 0 <= i < |sources| && HintsOne(sources[i], part)
  }

  ghost predicate HintsOne(source: Json, part: string) {
    exists item :: Says(source, item) && Contains(item, part)
  }

  lemma MentionsOne(source: Json, part: string)
    ensures Mentions(Evidence(source), part) <==> HintsOne(source, part)
  {
    forall item ensures item in Evidence(source) <==> Says(source, item) {
      CollectorFindsExactlyWhatIsSaid(source, item);
    }
    if Mentions(Evidence(source), part) {
      var i :| 0 <= i < |Evidence(source)| && Contains(Evidence(source)[i], part);
      assert Evidence(source)[i] in Evidence(source);
    }
  }

  lemma MentionsEither(a: seq<string>, b: seq<string>, part: string)
    ensures Mentions(a + b, part) <==> Mentions(a, part) || Mentions(b, part)
  {
    if Mentions(a, part) {
      var i :| 0 <= i < |a| && Contains(a[i], part);
      assert (a + b)[i] == a[i];
    }
    if Mentions(b, part) {
      var i :| 0 <= i < |b| && Contains(b[i], part);
      assert (a + b)[|a| + i] == b[i];
    }
  }

  lemma {:induction false} EvidenceHints(rawReason: Option<string>, sources: seq<Json>, part: string)
    ensures Mentions(AllEvidence(rawReason, sources), part) <==> Hints(rawReason, sources, part)
  {
    if sources == [] {
      MentionsOne(ReasonText(rawReason), part);
    } else {
      var n := |sources| - 1;
      EvidenceHints(rawReason, sources[..n], part);
      MentionsOne(sources[n], part);
      MentionsEither(AllEvidence(rawReason, sources[..n]), Evidence(sources[n]), part);
      assert forall i :: 0 <= i < n ==> sources[..n][i] == sources[i];
    }
  }

  /** A reason in terms of what the payloads say wherever they say it, and of where the price
      closed: a stop beats a take-profit, which beats market-if-touched. */
  ghost predicate ReasonIs(
    reason: CloseReason, closePrice: real, slPrice: Option<real>, tpPrice: Option<real>, rawReason: Option<string>, sources: seq<Json>)
  {
    var stop := Hints(rawReason, sources, "STOP") || NearLevel(closePrice, slPrice);
    var take := Hints(rawReason, sources, "TAKE") || Hints(rawReason, sources, "TP") || NearLevel(closePrice, tpPrice);
    var touched := Hints(rawReason, sources, "MARKET_IF_TOUCHED");
    (reason == SlHit <==> stop) && (reason == TpHit <==> take && !stop) &&
    (reason == Mit <==> touched && !stop && !take) && (reason == Manual <==> !stop && !take && !touched)
  }

  lemma ReasonFollowsWhatIsSaid(
    closePrice: real, slPrice: Option<real>, tpPrice: Option<real>, rawReason: Option<string>, sources: seq<Json>)
    ensures ReasonIs(InferCloseReason(closePrice, slPrice, tpPrice, rawReason, sources), closePrice, slPrice, tpPrice, rawReason, sources)
  {
    LevelIsAnInterval(closePrice, slPrice);
    LevelIsAnInterval(closePrice, tpPrice);
    EvidenceHints(rawReason, sources, "STOP");
    EvidenceHints(rawReason, sources, "TAKE");
    EvidenceHints(rawReason, sources, "TP");
    EvidenceHints(rawReason, sources, "MARKET_IF_TOUCHED");
  }

  /** Once evidence reads as market-if-touched at one price, it can never read as manual at
      another: only a level match can still override it. */
  lemma MitEvidenceNeverReadsManual(
    price: real, sl: Option<real>, tp: Option<real>, price': real, sl': Option<real>, tp': Option<real>,
    rawReason: Option<string>, sources: seq<Json>)
    requires InferCloseReason(price, sl, tp, rawReason, sources) == Mit
    ensures InferCloseReason(price', sl', tp', rawReason, sources) ==
            if MatchesLevel(price', sl') then SlHit else if MatchesLevel(price', tp') then TpHit else Mit
  {
  }
}
