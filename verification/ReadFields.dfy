/**
 The fields of a statement node by name, and which of them the walker visits, knows or refuses. An object of the
 tree lists its fields in any order; decoding arranges the ones to visit as the walk reads them.
 */
module ReadFields {
  import opened ReadTree

  datatype Field = Field(key: string, value: Raw)

  /** An object and its fields. A list is one whose fields are all called "item"; the definitions of a WITH are its
      "ctes" and the arguments of a call its "args". Flags that are off are not listed. */
  datatype Raw = Raw(kind: Kind, fields: seq<Field>)

  const SORTING := ["order_by", "limit", "offset", "distribute_by", "sort_by", "cluster_by"]

  /** What every node of walkExpressionFields may hold besides. */
  const COMMON := ["inferred_type", "trailing_comments", "comments", "distinct", "not", "kind", "quoted", "literal_type", "value", "name", "alias"]

  predicate Has(raw: Raw, key: string)
  {
    exists i :: 0 <= i < |raw.fields| && raw.fields[i].key == key
  }

  /** The fields walked, in order. */
  function WalkedKeys(raw: Raw): seq<string>
  {
    match raw.kind
    case Sequence => ["item"]
    case Select(_, _) =>
      ["with", "expressions", "from", "joins", "lateral_views", "prewhere", "where_clause", "group_by", "having"]
        + (if Has(raw, "qualify_after_window") then ["windows", "qualify"] else ["qualify", "windows"])
        + ["order_by", "distribute_by", "cluster_by", "sort_by", "limit_by", "limit", "offset", "fetch", "distinct_on", "top",
           "sample", "settings", "format", "hint", "connect", "into", "locks", "for_xml", "for_json", "exclude"]
    case SetOperation(_) => ["with", "left", "right"] + SORTING + ["on_columns"]
    case Subquery(_, _) => ["this"] + SORTING
    case Paren(_) => ["this"]
    case With(_) => ["ctes", "search"]
    case Cte(_, _) => ["this"]
    case Function(_, _, _, _) => ["args"]
    case Join => ["this", "on", "using", "pivots", "sample"]
    case In(_) => ["this", if Has(raw, "query") then "query" else "expressions", "unnest"]
    case SourceWrapper(Aliased) => ["this"]
    case SourceWrapper(Listed) => ["expressions"]
    case SourceWrapper(JoinedTable) => ["left", "joins", "lateral_views"]
    case SourceWrapper(Pivoted) => ["this", "expressions"]
    case Expression(shape, _, _, _) => WalkedByShape(raw, shape)
    case _ => []
  }

  function WalkedByShape(raw: Raw, shape: Shape): seq<string>
  {
    match shape
    case Aggregate => ["args", "filter", "order_by", "limit"]
    case Case => ["operand", "whens", "else_"]
    case If => ["condition", "true_value", "false_value"]
    case WindowCall => ["this", "over", "keep"]
    case Keep => ["order_by"]
    case NamedWindow => ["spec"]
    case WindowSpec => ["partition_by", "order_by", "frame"]
    case WindowFrame => ["start", "end"]
    case FrameBound(_) =>
      if Has(raw, "preceding") then ["preceding"] else if Has(raw, "following") then ["following"]
      else if Has(raw, "value") then ["value"] else []
    case Ordered => ["this", "with_fill"]
    case WithFill => ["from_", "to", "step", "staleness", "interpolate"]
    case Between => ["this", "low", "high"]
    case Like => ["left", "right", "escape"]
    case Cast => ["this", "format", "default"]
    case ValuesList => ["rows", "expressions"]
    case Binary => ["left", "right"]
    case Unary => ["this"]
    case ListOf => ["expressions"]
    case TypedAggregate =>
      ["this", "condition", "filter", "order_by", "separator", "limit", "percentile", "accuracy", "having_max"]
    case TypedWindow => ["this", "num_buckets", "offset", "default", "order_by", "args"]
    case ScalarFields =>
      ["this", "expression", "expressions", "args", "start", "length", "replacement", "position", "format", "default",
       "separator", "condition", "true_value", "false_value"]
    case ThisClause => ["this", "expressions", "format", "default", "value", "on", "order_by"]
    case ListClause => ["expressions"]
    case FetchClause => ["count"]
    case SampleClause => ["size", "seed", "offset", "bucket_numerator", "bucket_denominator", "bucket_field"]
    case ConnectClause => ["start", "connect"]
    case OutputClause => ["columns", "into_table"]
  }

  /** The fields known besides: whatever they hold is passed over. */
  function SilentKeys(raw: Raw): seq<string>
  {
    match raw.kind
    case Select(_, _) =>
      ["distinct", "leading_comments", "post_select_comments", "kind", "operation_modifiers", "qualify_after_window", "option"]
    case SetOperation(_) => ["all", "distinct", "by_name", "side", "kind", "corresponding", "strict"]
    case Subquery(_, _) =>
      ["alias", "column_aliases", "alias_explicit_as", "alias_keyword", "lateral", "pattern", "quoted"]
    case Paren(_) => if WrapsQuery(raw) then ["trailing_comments"] else COMMON
    case With(_) => ["recursive", "leading_comments"]
    case Cte(_, _) => ["alias", "columns", "materialized", "key_expressions", "alias_first", "comments"]
    case Function(_, _, _, _) =>
      ["name", "distinct", "trailing_comments", "use_bracket_syntax", "no_parens", "quoted", "span", "inferred_type"]
    case Join => ["kind"]
    case In(_) => ["not", "global", "is_field"]
    case Expression(shape, _, _, _) => SilentByShape(shape)
    case _ => []
  }

  function SilentByShape(shape: Shape): seq<string>
  {
    match shape
    case Aggregate => ["name", "distinct", "ignore_nulls", "inferred_type"]
    case Case => ["comments", "inferred_type"]
    case If => ["original_name", "inferred_type"]
    case WindowCall => ["inferred_type", "comments"]
    case Keep => []
    case NamedWindow => ["name"]
    case WindowSpec => ["window_name", "alias"]
    case WindowFrame => ["kind", "exclude", "kind_text", "start_side_text", "end_side_text"]
    case FrameBound(_) => []
    case Ordered => ["desc", "nulls_first", "explicit_asc", "comments"]
    case WithFill => []
    case ThisClause =>
      ["all", "totals", "siblings", "percent", "rows", "comments", "count", "direction", "with_ties", "parenthesized",
       "table_alias", "column_aliases", "outer", "temporary", "unlogged", "bulk_collect"]
    case ListClause => ["all", "totals", "siblings", "comments"]
    case FetchClause => ["direction", "percent", "rows", "with_ties"]
    case SampleClause =>
      ["method", "unit_after_size", "use_sample_keyword", "explicit_method", "method_before_size", "use_seed_keyword",
       "is_using_sample", "is_percent", "suppress_method_output"]
    case ConnectClause => ["nocycle"]
    case OutputClause => []
    case _ => COMMON
  }

  /** The key whose fields, any number of them, are the members of a list. */
  function ListKey(k: Kind): string
  {
    match k
    case Sequence => "item"
    case With(_) => "ctes"
    case Function(_, _, _, _) => "args"
    case _ => ""
  }

  // ---------------------------------------------------------------------------------------
  // Decoding

  const BLANK := Node(Blank, [], [], [])

  /** walkReadQuery takes what the parentheses hold. */
  predicate WrapsQuery(raw: Raw)
    decreases raw, 0
  {
    exists i :: 0 <= i < |raw.fields| && raw.fields[i].key == "this" && QueryInside(raw.fields[i].value)
  }

  predicate QueryInside(raw: Raw)
    decreases raw, 1
  {
    match raw.kind
    case Select(_, _) | SetOperation(_) => true
    case Subquery(sealed, _) => sealed || WrapsQuery(raw)
    case Paren(_) => WrapsQuery(raw)
    case _ => false
  }

  /** A frame bound is walked, and not checked, when it has a key the walk looks for. */
  function DecodedKind(raw: Raw): Kind
  {
    match raw.kind
    case Expression(FrameBound(_), fixed, naming, form) => Expression(FrameBound(WalkedKeys(raw) != []), fixed, naming, form)
    case _ => raw.kind
  }

  /** The values under a key among the first m fields. */
  function Picked(raw: Raw, key: string, m: nat): seq<Node>
    requires m <= |raw.fields|
    decreases raw, 0, m
  {
    if m == 0 then []
    else Picked(raw, key, m - 1) + (if raw.fields[m - 1].key == key then [Decode(raw.fields[m - 1].value)] else [])
  }

  /** All of them for a list; otherwise one, blank when the field is missing. */
  function AtKey(raw: Raw, key: string): seq<Node>
    decreases raw, 1
  {
    var values := Picked(raw, key, |raw.fields|);
    if key == ListKey(raw.kind) then values else if values == [] then [BLANK] else [values[0]]
  }

  /** The fields to visit, for the first m keys. */
  function Gathered(raw: Raw, m: nat): seq<Node>
    requires m <= |WalkedKeys(raw)|
    decreases raw, 2, m
  {
    if m == 0 then [] else Gathered(raw, m - 1) + AtKey(raw, WalkedKeys(raw)[m - 1])
  }

  /** Among the first m fields, those not walked: the silent ones, or the unknown ones. */
  function Others(raw: Raw, silent: bool, m: nat): seq<Node>
    requires m <= |raw.fields|
    decreases raw, 0, m
  {
    if m == 0 then []
    else
      var key := raw.fields[m - 1].key;
      Others(raw, silent, m - 1)
        + (if key !in WalkedKeys(raw) && (key in SilentKeys(raw)) == silent then [Decode(raw.fields[m - 1].value)] else [])
  }

  function Decode(raw: Raw): Node
    decreases raw, 3
  {
    Node(DecodedKind(raw), Gathered(raw, |WalkedKeys(raw)|), Others(raw, false, |raw.fields|), Others(raw, true, |raw.fields|))
  }

  /** Keys are distinct but for those of a list, and an IN has a list of expressions or a query. */
  predicate IsTree(raw: Raw)
    decreases raw
  {
    && (forall i, k :: 0 <= i < k < |raw.fields| && raw.fields[i].key == raw.fields[k].key ==> raw.fields[i].key == ListKey(raw.kind))
    && !(raw.kind.In? && Has(raw, "expressions") && Has(raw, "query"))
    && forall i :: 0 <= i < |raw.fields| ==> IsTree(raw.fields[i].value)
  }

  // ---------------------------------------------------------------------------------------
  // Where a field goes

  function Position(keys: seq<string>, key: string): (p: nat)
    requires key in keys
    ensures p < |keys| && keys[p] == key
  {
    if keys[0] == key then 0 else 1 + Position(keys[1..], key)
  }

  /** The place of a walked field among the fields visited. */
  function KidIndex(raw: Raw, f: nat): nat
    requires f < |raw.fields| && raw.fields[f].key in WalkedKeys(raw)
  {
    |Gathered(raw, Position(WalkedKeys(raw), raw.fields[f].key))| + |Picked(raw, raw.fields[f].key, f)|
  }

  lemma {:induction false} PickedAt(raw: Raw, key: string, f: nat, m: nat)
    requires f < m <= |raw.fields| && raw.fields[f].key == key
    ensures |Picked(raw, key, f)| < |Picked(raw, key, m)|
    ensures Picked(raw, key, m)[|Picked(raw, key, f)|] == Decode(raw.fields[f].value)
    decreases m
  {
    hide Decode;
    if f < m - 1 {
      PickedAt(raw, key, f, m - 1);
    }
  }

  /** A key that is not repeated is picked first. */
  lemma {:induction false} PickedFirst(raw: Raw, f: nat, m: nat)
    requires IsTree(raw) && m <= f < |raw.fields| && raw.fields[f].key != ListKey(raw.kind)
    ensures Picked(raw, raw.fields[f].key, m) == []
    decreases m
  {
    hide Decode;
    if m > 0 {
      PickedFirst(raw, f, m - 1);
    }
  }

  lemma {:induction false} GatheredAt(raw: Raw, p: nat, r: nat, m: nat)
    requires p < m <= |WalkedKeys(raw)| && r < |AtKey(raw, WalkedKeys(raw)[p])|
    ensures |Gathered(raw, p)| + r < |Gathered(raw, m)|
    ensures Gathered(raw, m)[|Gathered(raw, p)| + r] == AtKey(raw, WalkedKeys(raw)[p])[r]
    decreases m
  {
    hide AtKey, WalkedKeys;
    if p < m - 1 {
      GatheredAt(raw, p, r, m - 1);
    }
  }

  /** A walked field is visited at its place. */
  lemma WalkedFieldIsKid(raw: Raw, f: nat)
    requires IsTree(raw) && f < |raw.fields| && raw.fields[f].key in WalkedKeys(raw)
    ensures KidIndex(raw, f) < |Decode(raw).kids| && Decode(raw).kids[KidIndex(raw, f)] == Decode(raw.fields[f].value)
  {
    hide WalkedKeys, Picked, Gathered, Others, IsTree, DecodedKind;
    var key := raw.fields[f].key;
    var rank := |Picked(raw, key, f)|;
    PickedAt(raw, key, f, |raw.fields|);
    if key != ListKey(raw.kind) {
      PickedFirst(raw, f, f);
    }
    assert rank < |AtKey(raw, key)| && AtKey(raw, key)[rank] == Decode(raw.fields[f].value);
    GatheredAt(raw, Position(WalkedKeys(raw), key), rank, |WalkedKeys(raw)|);
  }

  lemma {:induction false} OthersHold(raw: Raw, f: nat, m: nat)
    requires f < m <= |raw.fields| && raw.fields[f].key !in WalkedKeys(raw)
    ensures Decode(raw.fields[f].value) in Others(raw, raw.fields[f].key in SilentKeys(raw), m)
    decreases m
  {
    hide Decode, WalkedKeys, SilentKeys;
    if f < m - 1 {
      OthersHold(raw, f, m - 1);
    }
  }
}
