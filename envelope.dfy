/**
 * Normalising the `response.body.items[.item]` envelope of the procurement
 * data service to a plain list of items.
 */
module Envelope {
  import opened Wrappers
  import opened Json

  /**
   * The node at `response.body.items`, read with `.get` and the defaults
   * `{}`, `{}` and `None`; `None` (the option) when a step on the way is not a
   * dictionary, where Python's `.get` raises.
   */
  function ItemsNode(j: Json): (r: Option<Json>)
    ensures r.Some? ==> j.JObj?
  {
    if !j.JObj? then None
    else
      var response := Field(j.fields, "response", JObj(map[]));
      if !response.JObj? then None
      else
        var body := Field(response.fields, "body", JObj(map[]));
        if !body.JObj? then None
        else Some(Field(body.fields, "items", JNull))
  }

  /**
   * `safe_get_items`: the list under `items`, the object or list under
   * `items.item`, and `[]` for every other shape (including every shape on
   * which Python raises, since the whole body is guarded).
   */
  function SafeGetItems(j: Json): (items: seq<Json>)
    ensures ItemsNode(j).None? ==> items == []
    ensures ItemsNode(j) == Some(JNull) ==> items == []
    ensures ItemsNode(j).Some? && ItemsNode(j).value.JList? ==> items == ItemsNode(j).value.elems
    ensures ItemsNode(j).Some? && ItemsNode(j).value.JObj? ==>
      var m := ItemsNode(j).value.fields;
      && ("item" in m && m["item"].JList? ==> items == m["item"].elems)
      && ("item" in m && m["item"].JObj? && m["item"].fields != map[] ==> items == [m["item"]])
      && ("item" !in m || !(m["item"].JList? || m["item"].JObj?) ==> items == [])
    ensures items != [] ==> ItemsNode(j).Some? && (ItemsNode(j).value.JList? || ItemsNode(j).value.JObj?)
  {
    if !Truthy(j) then []
    else match ItemsNode(j)
      case None => []
      case Some(items) =>
        if !Truthy(items) then []
        else if items.JList? then items.elems
        else if items.JObj? then
          var itemList := Field(items.fields, "item", JNull);
          if !Truthy(itemList) then []
          else if itemList.JObj? then [itemList]
          else if itemList.JList? then itemList.elems
          else []
        else []
  }

  /** The envelope with `value` at `response.body.items`. */
  function EnvelopeOf(value: Json): Json {
    JObj(map["response" := JObj(map["body" := JObj(map["items" := value])])])
  }

  /** Items sent as `items.item = [...]` come back as that list. */
  lemma WrappedListRoundTrip(xs: seq<Json>)
    ensures SafeGetItems(EnvelopeOf(JObj(map["item" := JList(xs)]))) == xs
  {
  }

  /** Items sent directly as `items = [...]` come back as that list. */
  lemma BareListRoundTrip(xs: seq<Json>)
    ensures SafeGetItems(EnvelopeOf(JList(xs))) == xs
  {
  }

  /** A single non-empty object under `items.item` becomes a one-element list. */
  lemma SingleObjectIsListed(fields: map<string, Json>)
    requires fields != map[]
    ensures SafeGetItems(EnvelopeOf(JObj(map["item" := JObj(fields)]))) == [JObj(fields)]
  {
  }

  /** A missing or empty `items` node means no data. */
  lemma NoItemsNoData(j: Json)
    requires ItemsNode(j).Some? && !Truthy(ItemsNode(j).value)
    ensures SafeGetItems(j) == []
  {
  }

  /**
   * The item list the bid-results reader builds from the decoded XML
   * (`items` a dictionary: its `item`, default `[]`; a list: itself; else `[]`;
   * then a dictionary is wrapped and anything but a list gives `[]`).
   */
  function BidItems(j: Json): (items: seq<Json>)
    ensures ItemsNode(j).None? ==> items == []
  {
    match ItemsNode(j)
    case None => []
    case Some(raw) =>
      var node :=
        if raw.JObj? then Field(raw.fields, "item", JList([]))
        else if raw.JList? then raw
        else JList([]);
      if node.JObj? then [node]
      else if node.JList? then node.elems
      else []
  }

  /**
   * The bid-results reader agrees with `safe_get_items` except on an empty
   * object under `items.item`, which it keeps as a one-element list.
   */
  lemma BidItemsAgree(j: Json)
    ensures (ItemsNode(j).Some? && ItemsNode(j).value.JObj?
              && "item" in ItemsNode(j).value.fields
              && ItemsNode(j).value.fields["item"] == JObj(map[]))
      ==> BidItems(j) == [JObj(map[])] && SafeGetItems(j) == []
    ensures !(ItemsNode(j).Some? && ItemsNode(j).value.JObj?
              && "item" in ItemsNode(j).value.fields
              && ItemsNode(j).value.fields["item"] == JObj(map[]))
      ==> BidItems(j) == SafeGetItems(j)
  {
  }
}
