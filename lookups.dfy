/**
 * The values the analyser reads from each reply of the procurement data
 * service: the officer's name, the A value, the lower-limit rate, the
 * preliminary estimates and the bid rows.
 */
module Lookups {
  import opened Wrappers
  import opened Text
  import opened Json
  import opened Envelope
  import opened Theoretical
  import opened Reconstruct

  /** What one request produced: no answer, an answer that does not decode, or a decoded document. */
  datatype Reply = Unreachable | Undecodable | Decoded(body: Json)

  /** The item list of a JSON reply; none when the request or its decoding failed. */
  function ReplyItems(r: Reply): (items: seq<Json>)
    ensures !r.Decoded? ==> items == []
    ensures r.Decoded? ==> items == SafeGetItems(r.body)
  {
    match r
    case Decoded(j) => SafeGetItems(j)
    case _ => []
  }

  /** The name shown when no officer name can be found. */
  const Unknown: string := "확인불가"

  /** The fields that may hold the officer's name, in order of preference. */
  const OfficerKeys: seq<string> := ["exctvNm", "chrgrNm", "ntceChrgrNm"]

  /** The stripped text of `item[key]`, when the key is present and that text is not blank. */
  function NameField(item: map<string, Json>, key: string): (r: Option<string>)
    ensures r.Some? <==> key in item && Strip(PyStr(item[key])) != []
    ensures r.Some? ==> r.value == Strip(PyStr(item[key]))
  {
    if key in item && Strip(PyStr(item[key])) != [] then Some(Strip(PyStr(item[key]))) else None
  }

  /** The first key of `keys` whose field holds a non-blank name, else `Unknown`. */
  function FirstName(item: map<string, Json>, keys: seq<string>): (name: string)
    ensures (forall i :: 0 <= i < |keys| ==> NameField(item, keys[i]).None?) ==> name == Unknown
    ensures forall i :: 0 <= i < |keys| ==>
              (NameField(item, keys[i]).Some? && forall j :: 0 <= j < i ==> NameField(item, keys[j]).None?) ==>
              name == NameField(item, keys[i]).value
  {
    if keys == [] then Unknown
    else match NameField(item, keys[0])
      case Some(n) => n
      case None =>
        var rest := FirstName(item, keys[1..]);
        assert forall i :: 1 <= i < |keys| ==> keys[i] == keys[1..][i - 1];
        rest
  }

  /**
   * The announcement's officer: the first of the executive officer, the
   * person in charge and the notice contact whose name is not blank,
   * stripped; `Unknown` when the reply carries no item or none of them.
   */
  function OfficerName(reply: Reply): (name: string)
    ensures name != [] && IsStripped(name)
    ensures ReplyItems(reply) == [] ==> name == Unknown
  {
    var items := ReplyItems(reply);
    var name := if items == [] || !items[0].JObj? then Unknown else FirstName(items[0].fields, OfficerKeys);
    assert name == Unknown || exists i :: (0 <= i < |OfficerKeys| && NameField(items[0].fields, OfficerKeys[i]).Some?
                                          && name == NameField(items[0].fields, OfficerKeys[i]).value);
    name
  }

  /** A non-blank executive-officer field wins over the other two. */
  lemma OfficerPrefersExecutive(item: map<string, Json>, rest: seq<Json>)
    requires "exctvNm" in item && Strip(PyStr(item["exctvNm"])) != []
    ensures OfficerName(Decoded(EnvelopeOf(JList([JObj(item)] + rest)))) == Strip(PyStr(item["exctvNm"]))
  {
    BareListRoundTrip([JObj(item)] + rest);
  }

  /** With a blank executive-officer field and a non-blank person in charge, that person is named. */
  lemma OfficerFallsBackToCharge(item: map<string, Json>, rest: seq<Json>)
    requires "exctvNm" !in item || Strip(PyStr(item["exctvNm"])) == []
    requires "chrgrNm" in item && Strip(PyStr(item["chrgrNm"])) != []
    ensures OfficerName(Decoded(EnvelopeOf(JList([JObj(item)] + rest)))) == Strip(PyStr(item["chrgrNm"]))
  {
    BareListRoundTrip([JObj(item)] + rest);
    assert NameField(item, OfficerKeys[0]).None?;
    assert FirstName(item, OfficerKeys) == FirstName(item, OfficerKeys[1..]);
    assert OfficerKeys[1..][0] == "chrgrNm";
    assert NameField(item, OfficerKeys[1..][0]).Some?;
  }

  /** With none of the three fields holding a name, the officer is `Unknown`. */
  lemma OfficerUnknownWithoutNames(item: map<string, Json>, rest: seq<Json>)
    requires forall k :: k in OfficerKeys ==> k !in item || Strip(PyStr(item[k])) == []
    ensures OfficerName(Decoded(EnvelopeOf(JList([JObj(item)] + rest)))) == Unknown
  {
    BareListRoundTrip([JObj(item)] + rest);
    assert forall i :: 0 <= i < |OfficerKeys| ==> OfficerKeys[i] in OfficerKeys;
  }

  /** The cost items whose sum is the A value. */
  const CostKeys: seq<string> := [
    "sftyMngcst", "sftyChckMngcst", "rtrfundNon", "mrfnHealthInsrprm",
    "npnInsrprm", "odsnLngtrmrcprInsrprm", "qltyMngcst"
  ]

  /** One cost field read numerically; missing or unreadable counts as 0. */
  function CostValue(item: map<string, Json>, key: string): real {
    if key in item then ToNumber(item[key]).GetOr(0.0) else 0.0
  }

  function CostSum(item: map<string, Json>, keys: seq<string>): real {
    if keys == [] then 0.0 else CostValue(item, keys[0]) + CostSum(item, keys[1..])
  }

  /**
   * The A value of an announcement: the sum of the seven cost fields of its
   * first item, a missing or unreadable field counting as 0; `0` when the
   * reply has no item.
   */
  function AValue(reply: Reply): (a: real)
    ensures ReplyItems(reply) == [] ==> a == 0.0
  {
    var items := ReplyItems(reply);
    if items == [] || !items[0].JObj? then 0.0 else CostSum(items[0].fields, CostKeys)
  }

  /** A cost field that does not read as a number counts as if it were absent. */
  lemma {:induction false} CostUnreadableIsAbsent(item: map<string, Json>, keys: seq<string>, key: string, v: Json)
    requires ToNumber(v).None?
    ensures CostSum(item[key := v], keys) == CostSum(item - {key}, keys)
  {
    if keys != [] {
      CostUnreadableIsAbsent(item, keys[1..], key, v);
    }
  }

  /** Fields that are not cost items do not change the sum. */
  lemma {:induction false} CostIgnoresOtherFields(item: map<string, Json>, keys: seq<string>, key: string, v: Json)
    requires key !in keys
    ensures CostSum(item[key := v], keys) == CostSum(item, keys)
  {
    if keys != [] {
      CostIgnoresOtherFields(item, keys[1..], key, v);
    }
  }

  /** Filling in a missing cost item with a number adds that number to the sum. */
  lemma {:induction false} CostAddsField(item: map<string, Json>, keys: seq<string>, key: string, x: real)
    requires key !in item
    requires exists i :: 0 <= i < |keys| && keys[i] == key && key !in keys[..i] && key !in keys[i + 1..]
    ensures CostSum(item[key := JFloat(x)], keys) == CostSum(item, keys) + x
  {
    var i :| 0 <= i < |keys| && keys[i] == key && key !in keys[..i] && key !in keys[i + 1..];
    if i == 0 {
      assert keys[1..] == keys[i + 1..];
      CostIgnoresOtherFields(item, keys[1..], key, JFloat(x));
    } else {
      assert keys[1..][i - 1] == key && keys[1..][..i - 1] == keys[1..i] && keys[1..][i..] == keys[i + 1..];
      assert keys[0] in keys[..i];
      CostAddsField(item, keys[1..], key, x);
    }
  }

  /**
   * The successful-bid lower-limit rate `sucsfbidLwltRate` of the first item,
   * read as a number; `0` when the reply has no item, the first item is not
   * an object or lacks the field, or the field does not read as a number
   * (`float()` raises and the handler keeps `0`).
   */
  function SuccessRate(reply: Reply): (r: real)
    ensures ReplyItems(reply) == [] ==> r == 0.0
    ensures ReplyItems(reply) != [] && ReplyItems(reply)[0].JObj? && "sucsfbidLwltRate" in ReplyItems(reply)[0].fields
      && ToNumber(ReplyItems(reply)[0].fields["sucsfbidLwltRate"]).Some?
      ==> r == ToNumber(ReplyItems(reply)[0].fields["sucsfbidLwltRate"]).value
    ensures ReplyItems(reply) != [] && (!ReplyItems(reply)[0].JObj? || "sucsfbidLwltRate" !in ReplyItems(reply)[0].fields
      || ToNumber(ReplyItems(reply)[0].fields["sucsfbidLwltRate"]).None?)
      ==> r == 0.0
  {
    var items := ReplyItems(reply);
    if items != [] && items[0].JObj? && "sucsfbidLwltRate" in items[0].fields then
      ToNumber(items[0].fields["sucsfbidLwltRate"]).GetOr(0.0)
    else 0.0
  }

  /** Some item of `items` has the field `key`: the column exists in the frame. */
  predicate HasColumn(items: seq<Json>, key: string) {
    exists i :: 0 <= i < |items| && items[i].JObj? && key in items[i].fields
  }

  /** How one cell of an estimate column reads when the column is cast to float. */
  datatype Cell = Amount(x: real) | Blank | Unreadable

  /**
   * The cell `item[key]` of a float column: blank (NaN) when the item lacks
   * the field or holds null, the number when it reads as one, and
   * unreadable otherwise, which makes the cast fail.
   */
  function CellOf(item: map<string, Json>, key: string): (c: Cell)
    ensures c == Blank <==> key !in item || item[key].JNull?
    ensures c.Amount? <==> key in item && ToNumber(item[key]).Some?
    ensures c.Amount? ==> c.x == ToNumber(item[key]).value
  {
    if key !in item || item[key].JNull? then Blank
    else match ToNumber(item[key])
      case Some(x) => Amount(x)
      case None => Unreadable
  }

  /** The value a readable cell holds: absent for a blank one. */
  function CellValue(c: Cell): Option<real>
    requires !c.Unreadable?
  {
    if c.Amount? then Some(c.x) else None
  }

  /** The estimate row of an item; none when it is not an object or one of its two cells is unreadable. */
  function RowOf(item: Json): (r: Option<EstimateRow>)
    ensures r.Some? <==> item.JObj? && !CellOf(item.fields, "bssamt").Unreadable? && !CellOf(item.fields, "bsisPlnprc").Unreadable?
  {
    if item.JObj? && !CellOf(item.fields, "bssamt").Unreadable? && !CellOf(item.fields, "bsisPlnprc").Unreadable?
    then Some(EstimateRow(CellValue(CellOf(item.fields, "bssamt")), CellValue(CellOf(item.fields, "bsisPlnprc"))))
    else None
  }

  /** The rows of all items, in order, or none when some item has no row. */
  function RowsOf(items: seq<Json>): (r: Option<seq<EstimateRow>>)
    ensures r.Some? <==> forall i :: 0 <= i < |items| ==> RowOf(items[i]).Some?
    ensures r.Some? ==> |r.value| == |items|
    ensures r.Some? ==> forall i :: 0 <= i < |items| ==> RowOf(items[i]) == Some(r.value[i])
  {
    if items == [] then Some([])
    else
      assert forall i :: 0 <= i < |items[1..]| ==> items[1..][i] == items[i + 1];
      match (RowOf(items[0]), RowsOf(items[1..]))
      case (Some(e), Some(es)) => Some([e] + es)
      case (None, _) => None
      case (_, None) => None
  }

  /**
   * The estimate frame of a reply: one row per item, with a missing or null
   * amount kept as absent; none at all when the reply has no item, when no
   * item has a `bssamt` or no item a `bsisPlnprc` field, or when some item
   * is not an object or holds an amount that does not read as a number.
   */
  function DecodeEstimates(reply: Reply): (r: Option<seq<EstimateRow>>)
    ensures r.Some? <==>
      && ReplyItems(reply) != []
      && HasColumn(ReplyItems(reply), "bssamt") && HasColumn(ReplyItems(reply), "bsisPlnprc")
      && forall i :: 0 <= i < |ReplyItems(reply)| ==> RowOf(ReplyItems(reply)[i]).Some?
    ensures r.Some? ==> r.value != [] && |r.value| == |ReplyItems(reply)|
    ensures r.Some? ==> forall i :: 0 <= i < |r.value| ==> RowOf(ReplyItems(reply)[i]) == Some(r.value[i])
  {
    var items := ReplyItems(reply);
    if items != [] && HasColumn(items, "bssamt") && HasColumn(items, "bsisPlnprc") then RowsOf(items) else None
  }

  /**
   * The base price of a decoded frame with two or more rows is the second
   * item's `bssamt`, absent when that cell is missing or null, whatever the
   * other cells hold.
   */
  lemma DecodedBasePrice(reply: Reply)
    requires DecodeEstimates(reply).Some? && |ReplyItems(reply)| >= 2
    ensures ReplyItems(reply)[1].JObj?
    ensures BasePrice(DecodeEstimates(reply).value) == CellValue(CellOf(ReplyItems(reply)[1].fields, "bssamt"))
  {
    var items := ReplyItems(reply);
    assert RowOf(items[1]).Some?;
  }

  /** The item an estimate is sent as. */
  function EstimateItem(e: Estimate): Json {
    JObj(map["bssamt" := JFloat(e.baseAmount), "bsisPlnprc" := JFloat(e.planAmount)])
  }

  /** Estimates sent as a list of items decode back to full rows, whose complete estimates are the estimates sent. */
  lemma DecodeEstimatesRoundTrip(es: seq<Estimate>)
    requires es != []
    ensures
      var r := DecodeEstimates(Decoded(EnvelopeOf(JList(seq(|es|, i requires 0 <= i < |es| => EstimateItem(es[i]))))));
      && r == Some(seq(|es|, i requires 0 <= i < |es| => FullRow(es[i])))
      && CompleteEstimates(r.value) == es
  {
    var items := seq(|es|, i requires 0 <= i < |es| => EstimateItem(es[i]));
    var rows := seq(|es|, i requires 0 <= i < |es| => FullRow(es[i]));
    BareListRoundTrip(items);
    assert items[0].JObj? && "bssamt" in items[0].fields && "bsisPlnprc" in items[0].fields;
    assert forall i :: 0 <= i < |items| ==> RowOf(items[i]) == Some(rows[i]);
    var r := RowsOf(items);
    assert r.Some?;
    assert r.value == rows;
    CompleteOfFullRows(es);
  }

  /**
   * A missing `bsisPlnprc` in a later item keeps the frame: three items, the
   * third without its planned price, still give three rows, the base price
   * of the second, and the first two as complete estimates.
   */
  lemma MissingPlanAmountKeepsBase(e0: Estimate, e1: Estimate, b: real)
    ensures
      var r := DecodeEstimates(Decoded(EnvelopeOf(JList([EstimateItem(e0), EstimateItem(e1), JObj(map["bssamt" := JFloat(b)])]))));
      && r == Some([FullRow(e0), FullRow(e1), EstimateRow(Some(b), None)])
      && BasePrice(r.value) == Some(e1.baseAmount)
      && CompleteEstimates(r.value) == [e0, e1]
  {
    var items := [EstimateItem(e0), EstimateItem(e1), JObj(map["bssamt" := JFloat(b)])];
    var rows := [FullRow(e0), FullRow(e1), EstimateRow(Some(b), None)];
    ThreeRows(items, rows);
    assert CompleteEstimates(rows) == [e0, e1] by {
      assert rows[1..][1..] == [rows[2]] && [rows[2]][1..] == [];
      assert CompleteEstimates([rows[2]]) == [];
      assert CompleteEstimates(rows[1..]) == [e1] + CompleteEstimates([rows[2]]);
      assert CompleteEstimates(rows) == [e0] + CompleteEstimates(rows[1..]);
    }
  }

  lemma ThreeRows(items: seq<Json>, rows: seq<EstimateRow>)
    requires |items| == 3 && |rows| == 3 && items[0].JObj? && "bssamt" in items[0].fields && "bsisPlnprc" in items[0].fields
    requires forall i :: 0 <= i < 3 ==> RowOf(items[i]) == Some(rows[i])
    ensures DecodeEstimates(Decoded(EnvelopeOf(JList(items)))) == Some(rows)
  {
    var reply := Decoded(EnvelopeOf(JList(items)));
    BareListRoundTrip(items);
    assert HasColumn(items, "bssamt") && HasColumn(items, "bsisPlnprc");
    var d := DecodeEstimates(reply);
    assert d.Some? && |d.value| == 3;
    assert forall i :: 0 <= i < 3 ==> d.value[i] == rows[i];
    assert d.value == rows;
  }

  /** The bid rows of the results table, or `NoAmountColumn` when no item has `bidprcAmt`. */
  datatype BidTable = NoAmountColumn | BidRows(bids: seq<Bid>, hasNameColumn: bool)

  /** The bid an item holds, when its `bidprcAmt` reads as a number. */
  function BidOf(item: Json): Option<Bid> {
    if item.JObj? && "bidprcAmt" in item.fields && ToNumber(item.fields["bidprcAmt"]).Some? then
      Some(Bid(ToNumber(item.fields["bidprcAmt"]).value,
               if "prcbdrNm" in item.fields then Some(item.fields["prcbdrNm"]) else None))
    else None
  }

  /** The items whose amount reads as a number, as bids, in order (`dropna` on `bidprcAmt`). */
  function ReadableBids(items: seq<Json>): (bids: seq<Bid>)
    ensures |bids| <= |items|
    ensures forall b :: b in bids ==> exists i :: 0 <= i < |items| && BidOf(items[i]) == Some(b)
  {
    if items == [] then []
    else
      var rest := ReadableBids(items[1..]);
      assert forall i :: 0 <= i < |items[1..]| ==> items[1..][i] == items[i + 1];
      match BidOf(items[0])
      case Some(b) => [b] + rest
      case None => rest
  }

  /** The bid rows of the opening results. */
  function DecodeBids(items: seq<Json>): (t: BidTable)
    ensures t.NoAmountColumn? <==> !HasColumn(items, "bidprcAmt")
    ensures t.BidRows? ==> t.hasNameColumn == HasColumn(items, "prcbdrNm")
  {
    if !HasColumn(items, "bidprcAmt") then NoAmountColumn
    else BidRows(ReadableBids(items), HasColumn(items, "prcbdrNm"))
  }

  /** A row whose amount does not read as a number is dropped. */
  lemma UnreadableBidDropped(items: seq<Json>, item: Json)
    requires BidOf(item).None?
    ensures ReadableBids([item] + items) == ReadableBids(items)
  {
    assert ([item] + items)[1..] == items;
  }

  /** The item a named bid is sent as. */
  function BidItem(amount: real, name: string): Json {
    JObj(map["bidprcAmt" := JFloat(amount), "prcbdrNm" := JStr(name)])
  }

  /** Named bids sent as items decode back to themselves, name column present. */
  lemma {:induction false} ReadableBidsRoundTrip(amounts: seq<real>, names: seq<string>)
    requires |amounts| == |names|
    ensures ReadableBids(seq(|amounts|, i requires 0 <= i < |amounts| && |names| == |amounts| => BidItem(amounts[i], names[i])))
      == seq(|amounts|, i requires 0 <= i < |amounts| && |names| == |amounts| => Bid(amounts[i], Some(JStr(names[i]))))
  {
    var items := seq(|amounts|, i requires 0 <= i < |amounts| && |names| == |amounts| => BidItem(amounts[i], names[i]));
    var bids := seq(|amounts|, i requires 0 <= i < |amounts| && |names| == |amounts| => Bid(amounts[i], Some(JStr(names[i]))));
    if amounts != [] {
      var tailItems := seq(|amounts[1..]|, i requires 0 <= i < |amounts[1..]| && |names[1..]| == |amounts[1..]| => BidItem(amounts[1..][i], names[1..][i]));
      var tailBids := seq(|amounts[1..]|, i requires 0 <= i < |amounts[1..]| && |names[1..]| == |amounts[1..]| => Bid(amounts[1..][i], Some(JStr(names[1..][i]))));
      ReadableBidsRoundTrip(amounts[1..], names[1..]);
      assert ReadableBids(tailItems) == tailBids;
      assert items == [items[0]] + tailItems by {
        assert items[1..] == tailItems;
      }
      assert bids == [bids[0]] + tailBids by {
        assert bids[1..] == tailBids;
      }
      assert BidOf(items[0]) == Some(bids[0]);
      ReadableBidsCons(items[0], tailItems);
    }
  }

  lemma ReadableBidsCons(item: Json, items: seq<Json>)
    requires BidOf(item).Some?
    ensures ReadableBids([item] + items) == [BidOf(item).value] + ReadableBids(items)
  {
    assert ([item] + items)[1..] == items;
  }
}
