/** The metadata filter index: field -> value -> set of identifiers, and the evaluation of filter
    expressions against it. */
module Filter {
  datatype FilterExpr =
    | Equals(field: string, value: string)
    | In(field: string, values: seq<string>)
    | And(conjuncts: seq<FilterExpr>)
    | Or(disjuncts: seq<FilterExpr>)
    | Not(operand: FilterExpr)

  type FieldIndex = map<string, map<string, set<nat>>>

  ghost predicate Has(index: FieldIndex, id: nat, field: string, value: string) {
    field in index && value in index[field] && id in index[field][value]
  }

  ghost predicate HasMetadata(index: FieldIndex, id: nat) {
    exists field, value :: Has(index, id, field, value)
  }

  /** What an expression means for one identifier.  A conjunction of nothing matches nothing, and a
      negation only speaks about identifiers that carry some metadata. */
  ghost predicate Matches(index: FieldIndex, expr: FilterExpr, id: nat) {
    match expr
    case Equals(field, value) => Has(index, id, field, value)
    case In(field, values) => exists value :: value in values && Has(index, id, field, value)
    case And(es) => es != [] && forall e :: e in es ==> Matches(index, e, id)
    case Or(es) => exists e :: e in es && Matches(index, e, id)
    case Not(e) => HasMetadata(index, id) && !Matches(index, e, id)
  }

  class FilterIndex {
    var index: FieldIndex

    constructor ()
      ensures index == map[]
    {
      index := map[];
    }

    /** Record one metadata pair; recording it again changes nothing. */
    method Insert(id: nat, field: string, value: string)
      modifies this
      ensures forall i, f, v :: Has(index, i, f, v) <==>
                                Has(old(index), i, f, v) || (i == id && f == field && v == value)
    {
      var fieldMap := if field in index then index[field] else map[];
      var ids := if value in fieldMap then fieldMap[value] else {};
      index := index[field := fieldMap[value := ids + {id}]];
    }

    /** `evaluate`, bottom-up over the expression. */
    method Evaluate(expr: FilterExpr) returns (ids: set<nat>)
      ensures forall id :: id in ids <==> Matches(index, expr, id)
      decreases expr
    {
      match expr {
        case Equals(field, value) =>
          ids := if field in index && value in index[field] then index[field][value] else {};
        case In(field, values) =>
          ids := {};
          if field in index {
            for i := 0 to |values|
              invariant forall id :: id in ids <==> exists j :: 0 <= j < i && Has(index, id, field, values[j])
            {
              if values[i] in index[field] {
                ids := ids + index[field][values[i]];
              }
            }
          }
        case And(es) =>
          if es == [] {
            return {};
          }
          ids := Evaluate(es[0]);
          for i := 1 to |es|
            invariant forall id :: id in ids <==> forall j :: 0 <= j < i ==> Matches(index, es[j], id)
          {
            var more := Evaluate(es[i]);
            ids := ids * more;
          }
        case Or(es) =>
          ids := {};
          for i := 0 to |es|
            invariant forall id :: id in ids <==> exists j :: 0 <= j < i && Matches(index, es[j], id)
          {
            var more := Evaluate(es[i]);
            ids := ids + more;
          }
        case Not(e) =>
          var all := AllIds();
          var matched := Evaluate(e);
          ids := all - matched;
      }
    }

    /** `all_ids`: the union of all per-value sets. */
    method AllIds() returns (all: set<nat>)
      ensures forall id :: id in all <==> HasMetadata(index, id)
    {
      all := {};
      var fields := index.Keys;
      while fields != {}
        invariant fields <= index.Keys
        invariant forall id :: id in all <==> exists f, v :: f !in fields && Has(index, id, f, v)
        decreases fields
      {
        var field :| field in fields;
        var values := index[field].Keys;
        ghost var before := all;
        while values != {}
          invariant values <= index[field].Keys
          invariant forall id :: id in all <==> id in before || exists v :: v !in values && Has(index, id, field, v)
          decreases values
        {
          var value :| value in values;
          all := all + index[field][value];
          values := values - {value};
        }
        fields := fields - {field};
      }
    }
  }
}
