/** Prepared statements: the query is split once and its placeholders are
    filled one by one or by name (src/statement.rs). */
module Statements {
  import opened Common
  import opened Lib
  import opened ParamValues
  import opened ColumnIds
  import ToSql

  /** `Statement`: the original text, its split form, and one slot per
      placeholder holding the value bound to it so far. */
  class Statement {
    const text: string
    const query: ParsedQuery
    var params: seq<Option<ParamValue>>

    ghost predicate Valid()
      reads this
    {
      Parses(Sql, text, query) && |params| == |query.params|
    }

    /** `Statement::new`: splits `text` and starts with every slot unbound. */
    constructor (text: string)
      ensures Valid()
      ensures this.text == text
      ensures forall k :: 0 <= k < |params| ==> params[k] == None
    {
      this.text := text;
      var q := ParseQuery(Sql, text);
      query := q;
      var slots: seq<Option<ParamValue>> := [];
      for i := 0 to |q.params|
        invariant |slots| == i
        invariant forall k :: 0 <= k < i ==> slots[k] == None
      {
        slots := slots + [None];
      }
      params := slots;
    }

    /** `text()`. */
    function Text(): (r: string)
      reads this
      ensures r == text
    {
      text
    }

    /** `param_count()`: the number of slots, one per placeholder. */
    function ParamCount(): (r: nat)
      reads this
      requires Valid()
      ensures r == |query.params|
    {
      |params|
    }

    /** `set_param`. A position must name an existing slot (otherwise the
        source panics); a name binds every placeholder spelled with it and
        leaves the others alone, so an unknown name changes nothing. */
    method SetParam(id: ColumnId, value: ParamValue)
      requires Valid()
      requires id.I32? ==> 0 <= id.i < |query.params|
      modifies this
      ensures Valid()
      ensures |params| == |old(params)|
      ensures id.I32? ==> params == old(params)[id.i := Some(value)]
      ensures id.String? ==> forall k :: 0 <= k < |params| ==>
        params[k] == (if query.params[k] == Some(id.s) then Some(value) else old(params)[k])
    {
      match id
      case I32(i) =>
        params := params[i := Some(value)];
      case String(name) =>
        var indexes := ParamIndex(query, name);
        for j := 0 to |indexes|
          invariant |params| == |old(params)| == |query.params|
          invariant forall k :: 0 <= k < |params| ==>
            params[k] == (if k in indexes[..j] then Some(value) else old(params)[k])
        {
          assert indexes[j] in indexes;
          params := params[indexes[j] := Some(value)];
          assert indexes[..j + 1] == indexes[..j] + [indexes[j]];
        }
        assert indexes[..|indexes|] == indexes;
    }
  }

  /** The arguments a statement is generated with: each bound slot's value,
      and the `Null` marker for an unbound one. */
  function Arguments(params: seq<Option<ParamValue>>): (args: seq<ToSql.SqlValue>)
    ensures |args| == |params|
    ensures forall k :: 0 <= k < |params| ==>
      ToSql.Encode(args[k]) == (if params[k].Some? then EncodeParam(params[k].value) else "null")
  {
    if params == [] then []
    else
      Arguments(params[..|params| - 1])
        + [match params[|params| - 1] case None => ToSql.NullValue case Some(p) => Lower(p)]
  }

  /** After binding `value` by name, every placeholder spelled with that name
      is generated as the same text: the encoding of `value`. */
  lemma NamedBindingFillsEveryOccurrence(params: seq<Option<ParamValue>>, q: ParsedQuery, name: string, value: ParamValue, k: nat)
    requires |params| == |q.params| && k < |q.params| && q.params[k] == Some(name)
    requires forall j :: 0 <= j < |params| && q.params[j] == Some(name) ==> params[j] == Some(value)
    ensures Substitutions(Arguments(params), |q.params|)[k] == EncodeParam(value)
  {
    SubstitutionsAt(Arguments(params), |q.params|, k);
  }

  /** A slot never bound is generated as `null`. */
  lemma UnboundSlotIsNull(params: seq<Option<ParamValue>>, k: nat)
    requires k < |params| && params[k].None?
    ensures Substitutions(Arguments(params), |params|)[k] == "null"
  {
    SubstitutionsAt(Arguments(params), |params|, k);
  }
}
