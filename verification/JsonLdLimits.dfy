/** The walk that rejects documents with unsupported keywords or too many nodes. */
module JsonLdLimits {
  import opened Options
  import opened JsonLd

  datatype LimitError = UnsupportedFeatures | TooManyNodes

  predicate Keyword(key: string) {
    key == "@graph" || key == "@included" || key == "@reverse"
  }

  // ----- Reference definitions

  function Nodes(json: Json): (n: nat)
    ensures 1 <= n
    decreases json, 1
  {
    match json
    case Obj(fields) => 1 + FieldNodes(fields)
    case Arr(items) => 1 + ItemNodes(items)
    case _ => 1
  }

  function FieldNodes(fields: seq<Field>): nat
    decreases fields, 0
  {
    if fields == [] then 0 else Nodes(fields[0].value) + FieldNodes(fields[1..])
  }

  function ItemNodes(items: seq<Json>): nat
    decreases items, 0
  {
    if items == [] then 0 else Nodes(items[0]) + ItemNodes(items[1..])
  }

  predicate Unsupported(json: Json)
    decreases json, 1
  {
    match json
    case Obj(fields) => UnsupportedFields(fields)
    case Arr(items) => UnsupportedItems(items)
    case _ => false
  }

  predicate UnsupportedFields(fields: seq<Field>)
    decreases fields, 0
  {
    fields != [] && (Keyword(fields[0].key) || Unsupported(fields[0].value) || UnsupportedFields(fields[1..]))
  }

  predicate UnsupportedItems(items: seq<Json>)
    decreases items, 0
  {
    items != [] && (Unsupported(items[0]) || UnsupportedItems(items[1..]))
  }

  /** How many nodes stand before the first keyword in document order, if there is one. */
  function NodesBefore(json: Json): Option<nat>
    decreases json, 1
  {
    match json
    case Obj(fields) => Later(1, NodesBeforeInFields(fields))
    case Arr(items) => Later(1, NodesBeforeInItems(items))
    case _ => None
  }

  function Later(n: nat, position: Option<nat>): Option<nat> {
    if position.None? then None else Some(n + position.value)
  }

  function NodesBeforeInFields(fields: seq<Field>): Option<nat>
    decreases fields, 0
  {
    if fields == [] then None
    else if Keyword(fields[0].key) then Some(0)
    else if NodesBefore(fields[0].value).Some? then NodesBefore(fields[0].value)
    else Later(Nodes(fields[0].value), NodesBeforeInFields(fields[1..]))
  }

  function NodesBeforeInItems(items: seq<Json>): Option<nat>
    decreases items, 0
  {
    if items == [] then None
    else if NodesBefore(items[0]).Some? then NodesBefore(items[0])
    else Later(Nodes(items[0]), NodesBeforeInItems(items[1..]))
  }

  lemma {:induction false} KeywordIffPosition(json: Json)
    ensures Unsupported(json) <==> NodesBefore(json).Some?
    ensures NodesBefore(json).Some? ==> 1 <= NodesBefore(json).value <= Nodes(json)
    decreases json, 1
  {
    match json
    case Obj(fields) => KeywordIffPositionFields(fields);
    case Arr(items) => KeywordIffPositionItems(items);
    case _ =>
  }

  lemma {:induction false} KeywordIffPositionFields(fields: seq<Field>)
    ensures UnsupportedFields(fields) <==> NodesBeforeInFields(fields).Some?
    ensures NodesBeforeInFields(fields).Some? ==> NodesBeforeInFields(fields).value <= FieldNodes(fields)
    decreases fields, 0
  {
    if fields != [] {
      KeywordIffPosition(fields[0].value);
      KeywordIffPositionFields(fields[1..]);
    }
  }

  lemma {:induction false} KeywordIffPositionItems(items: seq<Json>)
    ensures UnsupportedItems(items) <==> NodesBeforeInItems(items).Some?
    ensures NodesBeforeInItems(items).Some? ==> NodesBeforeInItems(items).value <= ItemNodes(items)
    decreases items, 0
  {
    if items != [] {
      KeywordIffPosition(items[0]);
      KeywordIffPositionItems(items[1..]);
    }
  }

  /** The three keywords, whatever stands under them and around the hash. */
  lemma KeywordsUnsupported(key: string, v: Json, before: seq<Field>, after: seq<Field>)
    requires key in {"@graph", "@included", "@reverse"}
    ensures UnsupportedFields(before + [Field(key, v)] + after)
    decreases |before|
  {
    var fields := before + [Field(key, v)] + after;
    if before == [] {
      assert fields[0] == Field(key, v);
    } else {
      assert fields[0] == before[0] && fields[1..] == before[1..] + [Field(key, v)] + after;
      KeywordsUnsupported(key, v, before[1..], after);
    }
  }

  /** Other keys are no keywords: a hash is supported if its values are. */
  lemma {:induction false} OtherKeysSupported(fields: seq<Field>)
    requires forall i | 0 <= i < |fields| ::
      fields[i].key !in {"@graph", "@included", "@reverse"} && !Unsupported(fields[i].value)
    ensures !UnsupportedFields(fields)
    decreases |fields|
  {
    if fields != [] { OtherKeysSupported(fields[1..]); }
  }

  // ----- What the walk answers

  /** A keyword is reported if the walk gets to it: after as many nodes as the budget
      allows, or after the root, which is entered whatever the budget is. */
  function Verdict(json: Json, budget: int): Result<int, LimitError> {
    var k := NodesBefore(json);
    if k.Some? && (k.value <= budget || k.value == 1) then Err(UnsupportedFeatures)
    else if k.Some? || budget < Nodes(json) then Err(TooManyNodes)
    else Ok(budget - Nodes(json))
  }

  /** The document passes exactly when it has no unsupported keyword at any depth and at
      most `budget` nodes; what is left of the budget is then returned. */
  lemma PassesIff(json: Json, budget: int)
    ensures Verdict(json, budget).Ok? <==> !Unsupported(json) && Nodes(json) <= budget
    ensures Verdict(json, budget).Ok? ==> Verdict(json, budget).value == budget - Nodes(json)
    ensures Verdict(json, budget) == Err(UnsupportedFeatures) ==> Unsupported(json)
    ensures Verdict(json, budget) == Err(TooManyNodes) ==> budget < Nodes(json)
  {
    KeywordIffPosition(json);
  }

  // ----- The loops

  method CheckLimits(json: Json, budget: int) returns (r: Result<int, LimitError>)
    ensures r == Verdict(json, budget)
    decreases json, 1
  {
    var left := budget - 1;
    if json.Obj? {
      KeywordIffPositionFields(json.fields);
      r := CheckFields(json.fields, left);
    } else if json.Arr? {
      KeywordIffPositionItems(json.items);
      r := CheckItems(json.items, left);
    } else {
      r := Ok(left);
    }
    if r.Ok? && r.value < 0 { r := Err(TooManyNodes); }
  }

  /** What the loop over a hash or an array makes of the budget it is handed: `size` nodes
      are to come, the first keyword `position` nodes from here. */
  function LoopVerdict(position: Option<nat>, size: nat, left: int): Result<int, LimitError> {
    if position.Some? && (position.value <= left || position.value == 0) then Err(UnsupportedFeatures)
    else if position.Some? || (size > 0 && left < size) then Err(TooManyNodes)
    else Ok(left - size)
  }

  method CheckFields(fields: seq<Field>, budget: int) returns (r: Result<int, LimitError>)
    ensures r == LoopVerdict(NodesBeforeInFields(fields), FieldNodes(fields), budget)
    decreases fields, 0
  {
    var left := budget;
    var i := 0;
    while i < |fields|
      invariant 0 <= i <= |fields|
      invariant i > 0 ==> 0 <= left
      invariant i == 0 ==> left == budget
      invariant LoopVerdict(NodesBeforeInFields(fields), FieldNodes(fields), budget)
        == LoopVerdict(NodesBeforeInFields(fields[i..]), FieldNodes(fields[i..]), left)
    {
      var key, value := fields[i].key, fields[i].value;
      assert fields[i..][0] == fields[i] && fields[i..][1..] == fields[i + 1..];
      KeywordIffPosition(value);
      KeywordIffPositionFields(fields[i + 1..]);
      if Keyword(key) { return Err(UnsupportedFeatures); }
      if left < 1 { return Err(TooManyNodes); }
      var checked := CheckLimits(value, left);
      if checked.Err? { return checked; }
      left := checked.value;
      i := i + 1;
    }
    return Ok(left);
  }

  method CheckItems(items: seq<Json>, budget: int) returns (r: Result<int, LimitError>)
    ensures r == LoopVerdict(NodesBeforeInItems(items), ItemNodes(items), budget)
    decreases items, 0
  {
    var left := budget;
    var i := 0;
    while i < |items|
      invariant 0 <= i <= |items|
      invariant i > 0 ==> 0 <= left
      invariant i == 0 ==> left == budget
      invariant LoopVerdict(NodesBeforeInItems(items), ItemNodes(items), budget)
        == LoopVerdict(NodesBeforeInItems(items[i..]), ItemNodes(items[i..]), left)
    {
      var value := items[i];
      assert items[i..][0] == value && items[i..][1..] == items[i + 1..];
      KeywordIffPosition(value);
      KeywordIffPositionItems(items[i + 1..]);
      if left < 1 { return Err(TooManyNodes); }
      var checked := CheckLimits(value, left);
      if checked.Err? { return checked; }
      left := checked.value;
      i := i + 1;
    }
    return Ok(left);
  }
}
