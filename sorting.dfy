/**
 * The shape the modules' `*Sorting.ToSortExpressions` share: parse the sort
 * string, lower-case each field name and look it up in the module's key
 * table, keep the orderings of the fields the table knows, in input order
 * and with their parsed direction, and fall back to a single default
 * ordering when no field was parsed or none was recognised.
 *
 * A key table is the module's `if`/`else if` chain on the lower-cased name.
 */
module Sorting {
  import opened Wrappers
  import opened Text
  import opened Querying

  /** The ordering one parsed field gives under a key table, if the table knows the lower-cased name. */
  function ExpressionOf<K>(f: SortField, table: string -> Option<K>): Option<SortExpression<K>>
  {
    match table(ToLowerInvariant(f.field))
    case Some(k) => Some(SortExpression(k, f.descending))
    case None => None
  }

  /** The orderings of the recognised fields, in input order; duplicates are kept. */
  function Recognised<K>(fields: seq<SortField>, table: string -> Option<K>): (r: seq<SortExpression<K>>)
    ensures |r| <= |fields|
    decreases |fields|
  {
    if fields == [] then []
    else
      var rest := Recognised(fields[..|fields| - 1], table);
      match ExpressionOf(fields[|fields| - 1], table)
      case Some(e) => rest + [e]
      case None => rest
  }

  /** Nothing is recognised exactly when the table knows none of the fields. */
  lemma {:induction false} RecognisedEmptyIff<K>(fields: seq<SortField>, table: string -> Option<K>)
    ensures Recognised(fields, table) == [] <==> forall i :: 0 <= i < |fields| ==> ExpressionOf(fields[i], table).None?
    decreases |fields|
  {
    if fields != [] {
      var init := fields[..|fields| - 1];
      RecognisedEmptyIff(init, table);
      assert forall i :: 0 <= i < |init| ==> init[i] == fields[i];
    }
  }

  /** Every recognised ordering comes from a field, and every field the table knows gives one. */
  lemma {:induction false} RecognisedMembers<K>(fields: seq<SortField>, table: string -> Option<K>)
    ensures var r := Recognised(fields, table);
      (forall j :: 0 <= j < |r| ==> exists i :: 0 <= i < |fields| && ExpressionOf(fields[i], table) == Some(r[j])) &&
      (forall i :: 0 <= i < |fields| && ExpressionOf(fields[i], table).Some? ==> ExpressionOf(fields[i], table).value in r)
    decreases |fields|
  {
    if fields != [] {
      var init := fields[..|fields| - 1];
      RecognisedMembers(init, table);
      assert forall i :: 0 <= i < |init| ==> init[i] == fields[i];
    }
  }

  /** Recognising a concatenation recognises each part: the order of the input is kept. */
  lemma {:induction false} RecognisedAppend<K>(a: seq<SortField>, b: seq<SortField>, table: string -> Option<K>)
    ensures Recognised(a + b, table) == Recognised(a, table) + Recognised(b, table)
    decreases |b|
  {
    if b == [] {
      assert a + b == a;
    } else {
      var init := b[..|b| - 1];
      assert (a + b)[..|a + b| - 1] == a + init;
      assert (a + b)[|a + b| - 1] == b[|b| - 1];
      RecognisedAppend(a, init, table);
    }
  }

  /** One more field extends what the prefix before it recognised. */
  lemma RecognisedStep<K>(fields: seq<SortField>, i: int, table: string -> Option<K>)
    requires 0 <= i < |fields|
    ensures Recognised(fields[..i + 1], table) ==
      match ExpressionOf(fields[i], table)
      case Some(e) => Recognised(fields[..i], table) + [e]
      case None => Recognised(fields[..i], table)
  {
    assert fields[..i + 1][..i] == fields[..i];
  }

  /** What `ToSortExpressions` returns: the recognised orderings, or the fallback alone. */
  function SortSpec<K>(sort: Option<string>, descending: bool, table: string -> Option<K>, fallback: SortExpression<K>): (r: seq<SortExpression<K>>)
    ensures r != []
    ensures r == [fallback] || r == Recognised(ParseSpec(sort, descending), table)
  {
    var fields := ParseSpec(sort, descending);
    if fields == [] then [fallback]
    else
      var list := Recognised(fields, table);
      if list == [] then [fallback] else list
  }

  lemma SortSpecOfFields<K>(sort: Option<string>, descending: bool, table: string -> Option<K>, fallback: SortExpression<K>, fields: seq<SortField>)
    requires fields == ParseSpec(sort, descending)
    ensures SortSpec(sort, descending, table, fallback) ==
      if fields == [] || Recognised(fields, table) == [] then [fallback] else Recognised(fields, table)
  {
  }

  /** With nothing recognised, the fallback ordering alone. */
  lemma NothingRecognisedFallsBack<K>(sort: Option<string>, descending: bool, table: string -> Option<K>, fallback: SortExpression<K>)
    requires forall i :: 0 <= i < |ParseSpec(sort, descending)| ==> ExpressionOf(ParseSpec(sort, descending)[i], table).None?
    ensures SortSpec(sort, descending, table, fallback) == [fallback]
  {
    RecognisedEmptyIff(ParseSpec(sort, descending), table);
  }

  /** With some field recognised, exactly the recognised orderings, and the fallback is not added. */
  lemma SomethingRecognisedIsKept<K>(sort: Option<string>, descending: bool, table: string -> Option<K>, fallback: SortExpression<K>, i: int)
    requires 0 <= i < |ParseSpec(sort, descending)| && ExpressionOf(ParseSpec(sort, descending)[i], table).Some?
    ensures SortSpec(sort, descending, table, fallback) == Recognised(ParseSpec(sort, descending), table)
  {
    RecognisedEmptyIff(ParseSpec(sort, descending), table);
  }

  /** The loop of `ToSortExpressions`: parse, append each recognised field's ordering, then the fallback if the list stayed empty. */
  method ToSortExpressions<K>(sort: Option<string>, descending: bool, table: string -> Option<K>, fallback: SortExpression<K>)
    returns (list: seq<SortExpression<K>>)
    ensures list == SortSpec(sort, descending, table, fallback)
  {
    var fields := Parse(sort, descending);
    SortSpecOfFields(sort, descending, table, fallback, fields);
    list := [];
    if |fields| == 0 {
      list := list + [fallback];
      return;
    }
    var i := 0;
    while i < |fields|
      invariant 0 <= i <= |fields|
      invariant list == Recognised(fields[..i], table)
    {
      var field := fields[i];
      var key := ToLowerInvariant(field.field);
      RecognisedStep(fields, i, table);
      match table(key) {
        case Some(k) =>
          list := list + [SortExpression(k, field.descending)];
        case None =>
      }
      i := i + 1;
    }
    assert fields[..i] == fields;
    if |list| == 0 {
      list := list + [fallback];
    }
  }
}
