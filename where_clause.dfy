/** The definition-expression compiler of src/App.tsx: it turns the
    configured filter list and the applied selections into the SQL `WHERE`
    text that the map layer and every chart query use. */
module WhereClause {
  import opened Wrappers
  import opened Strings
  import opened Values

  /** One entry of `DefinitionExpressionQuery.filters`. A `YearRange` is an
      entry whose `type` is `"yearRange"`; every other entry is an `InList`
      filter whose `kind` is its `type` (`state`, `forest` or `cause`). */
  datatype FilterDef =
    | YearRange(field: string, fromSelector: string, toSelector: string)
    | InList(kind: string, field: string)

  /** `DefinitionExpressionQuery`: an absent `castYearAsInt` is `false`. */
  datatype QueryConfig = QueryConfig(castYearAsInt: bool, filters: seq<FilterDef>)

  /** The applied selections, keyed by the controls' `selectedTextId`. */
  type SelectedMap = map<string, Selection>

  function Lookup(selected: SelectedMap, key: string): Option<Selection> {
    if key in selected then Some(selected[key]) else None
  }

  /** The selection key a list filter reads: state and forest have their
      own; every other type reads the cause selection. */
  function SelectorKey(kind: string): string {
    if kind == "state" then "selectedState"
    else if kind == "forest" then "selectedForest"
    else "selectedCause"
  }

  /** `isNumericLike` on a string value: after trimming, an optional minus,
      digits, and an optional fraction. */
  predicate IsNumericLike(v: string) {
    IsDecimalLiteral(Trim(v))
  }

  /** `v.replace(/'/g, "''")`. */
  function EscapeQuotes(v: string): (r: string)
    ensures |r| >= |v|
  {
    if v == [] then []
    else (if v[0] == '\'' then "''" else [v[0]]) + EscapeQuotes(v[1..])
  }

  /** A SQL string literal holding `v`. */
  function Quote(v: string): string {
    "'" + EscapeQuotes(v) + "'"
  }

  function Trimmed(vals: seq<string>): (r: seq<string>)
    ensures |r| == |vals|
  {
    if vals == [] then [] else [Trim(vals[0])] + Trimmed(vals[1..])
  }

  function Quoted(vals: seq<string>): (r: seq<string>)
    ensures |r| == |vals|
  {
    if vals == [] then [] else [Quote(vals[0])] + Quoted(vals[1..])
  }

  predicate AllNumericLike(vals: seq<string>) {
    forall i :: 0 <= i < |vals| ==> IsNumericLike(vals[i])
  }

  /** `sqlList`: the list is classified as a whole; bare trimmed numbers
      when every value looks numeric, quoted literals for all otherwise. */
  function SqlList(vals: seq<string>): string {
    if AllNumericLike(vals) then Join(Trimmed(vals), ",") else Join(Quoted(vals), ",")
  }

  /** The clause of a `yearRange` filter. Its bounds are tested for
      JavaScript truthiness, so 0, NaN, null and a missing selection all
      count as "no bound". */
  function RangeClause(fld: string, fr: Option<Selection>, to: Option<Selection>): (r: Option<string>)
    ensures r.None? <==> !SelectionTruthy(fr) && !SelectionTruthy(to)
    ensures SelectionTruthy(fr) && SelectionTruthy(to) ==>
      r == Some(fld + " BETWEEN " + SelectionText(fr.value) + " AND " + SelectionText(to.value))
    ensures SelectionTruthy(fr) && !SelectionTruthy(to) ==> r == Some(fld + " >= " + SelectionText(fr.value))
    ensures !SelectionTruthy(fr) && SelectionTruthy(to) ==> r == Some(fld + " <= " + SelectionText(to.value))
  {
    if SelectionTruthy(fr) && SelectionTruthy(to) then
      Some(fld + " BETWEEN " + SelectionText(fr.value) + " AND " + SelectionText(to.value))
    else if SelectionTruthy(fr) then Some(fld + " >= " + SelectionText(fr.value))
    else if SelectionTruthy(to) then Some(fld + " <= " + SelectionText(to.value))
    else None
  }

  /** The field reference of a range filter, wrapped in an integer cast when configured. */
  function RangeField(field: string, castYearAsInt: bool): string {
    if castYearAsInt then "CAST(" + field + " AS INT)" else field
  }

  /** The clause of a list filter: an `IN` list when its selection is a
      non-empty list of codes; a number, NaN, null or a missing or empty
      selection contributes nothing. */
  function InClause(field: string, sel: Option<Selection>): (r: Option<string>)
    ensures r.Some? <==> sel.Some? && sel.value.Codes? && |sel.value.codes| > 0
    ensures sel.Some? && sel.value.Codes? && |sel.value.codes| > 0 ==>
      r == Some(field + " IN (" + SqlList(sel.value.codes) + ")")
  {
    match sel
    case Some(Codes(vals)) =>
      if |vals| > 0 then Some(field + " IN (" + SqlList(vals) + ")") else None
    case _ => None
  }

  /** The clause one filter contributes, if any. */
  function ClauseOf(f: FilterDef, selected: SelectedMap, castYearAsInt: bool): Option<string> {
    match f
    case YearRange(field, fromSel, toSel) =>
      RangeClause(RangeField(field, castYearAsInt), Lookup(selected, fromSel), Lookup(selected, toSel))
    case InList(kind, field) =>
      InClause(field, Lookup(selected, SelectorKey(kind)))
  }

  function OptionToSeq(o: Option<string>): seq<string> {
    match o
    case Some(c) => [c]
    case None => []
  }

  /** The clauses of `filters`, in the order the filters are declared. */
  function Clauses(filters: seq<FilterDef>, selected: SelectedMap, castYearAsInt: bool): seq<string> {
    if filters == [] then []
    else
      var n := |filters| - 1;
      Clauses(filters[..n], selected, castYearAsInt) + OptionToSeq(ClauseOf(filters[n], selected, castYearAsInt))
  }

  /** The `WHERE` text: the clauses joined by `AND`, or the tautology `1=1`. */
  function Where(cfg: QueryConfig, selected: SelectedMap): string {
    var parts := Clauses(cfg.filters, selected, cfg.castYearAsInt);
    if |parts| > 0 then Join(parts, " AND ") else "1=1"
  }

  lemma ClausesStep(filters: seq<FilterDef>, i: nat, selected: SelectedMap, castYearAsInt: bool)
    requires i < |filters|
    ensures Clauses(filters[..i + 1], selected, castYearAsInt)
         == Clauses(filters[..i], selected, castYearAsInt) + OptionToSeq(ClauseOf(filters[i], selected, castYearAsInt))
  {
    assert filters[..i + 1][..i] == filters[..i];
  }

  /** The body of the loop of `buildWhereFromConfig`: the clause one filter
      pushes onto `parts`, if any. */
  method FilterClause(f: FilterDef, selected: SelectedMap, castYear: bool) returns (clause: Option<string>)
    ensures clause == ClauseOf(f, selected, castYear)
  {
    clause := None;
    match f {
      case YearRange(field, fromSel, toSel) =>
        var fr := Lookup(selected, fromSel);
        var to := Lookup(selected, toSel);
        var fld := if castYear then "CAST(" + field + " AS INT)" else field;
        if SelectionTruthy(fr) && SelectionTruthy(to) {
          clause := Some(fld + " BETWEEN " + SelectionText(fr.value) + " AND " + SelectionText(to.value));
        } else if SelectionTruthy(fr) && !SelectionTruthy(to) {
          clause := Some(fld + " >= " + SelectionText(fr.value));
        } else if !SelectionTruthy(fr) && SelectionTruthy(to) {
          clause := Some(fld + " <= " + SelectionText(to.value));
        }
      case InList(kind, field) =>
        var key := SelectorKey(kind);
        var vals := match Lookup(selected, key) case Some(Codes(cs)) => cs case _ => [];
        if |vals| > 0 {
          clause := Some(field + " IN (" + SqlList(vals) + ")");
        }
    }
  }

  /** `buildWhereFromConfig`: walks the filters in order, pushing each
      produced clause onto `parts`. */
  method BuildWhere(cfg: QueryConfig, selected: SelectedMap) returns (where: string)
    ensures where == Where(cfg, selected)
  {
    var parts: seq<string> := [];
    var castYear := cfg.castYearAsInt;
    var i := 0;
    while i < |cfg.filters|
      invariant 0 <= i <= |cfg.filters|
      invariant parts == Clauses(cfg.filters[..i], selected, castYear)
    {
      var clause := FilterClause(cfg.filters[i], selected, castYear);
      ClausesStep(cfg.filters, i, selected, castYear);
      if clause.Some? {
        parts := parts + [clause.value];
      }
      i := i + 1;
    }
    assert cfg.filters[..i] == cfg.filters;
    where := if |parts| > 0 then Join(parts, " AND ") else "1=1";
  }

  // ----- Properties -----

  /** Clauses appear in declared filter order: the clauses of a
      concatenation are the clauses of each part, one after the other. */
  lemma {:induction false} ClausesInOrder(a: seq<FilterDef>, b: seq<FilterDef>, selected: SelectedMap, cast: bool)
    ensures Clauses(a + b, selected, cast) == Clauses(a, selected, cast) + Clauses(b, selected, cast)
  {
    if b == [] {
      assert a + b == a;
    } else {
      var n := |b| - 1;
      var init := b[..n];
      var f := b[n];
      ClausesInOrder(a, init, selected, cast);
      SplitLast(a, b);
      ClausesSnoc(a + init, f, selected, cast);
      ClausesSnoc(init, f, selected, cast);
      var ca, ci, cf := Clauses(a, selected, cast), Clauses(init, selected, cast), OptionToSeq(ClauseOf(f, selected, cast));
      calc {
        Clauses(a + b, selected, cast);
        Clauses((a + init) + [f], selected, cast);
        Clauses(a + init, selected, cast) + cf;
        (ca + ci) + cf;
        ca + (ci + cf);
        ca + Clauses(init + [f], selected, cast);
        ca + Clauses(b, selected, cast);
      }
    }
  }

  lemma SplitLast<T>(a: seq<T>, b: seq<T>)
    requires b != []
    ensures b == b[..|b| - 1] + [b[|b| - 1]]
    ensures a + b == (a + b[..|b| - 1]) + [b[|b| - 1]]
  {
  }

  lemma ClausesSnoc(fs: seq<FilterDef>, f: FilterDef, selected: SelectedMap, cast: bool)
    ensures Clauses(fs + [f], selected, cast) == Clauses(fs, selected, cast) + OptionToSeq(ClauseOf(f, selected, cast))
  {
    assert (fs + [f])[..|fs|] == fs;
  }

  /** Each clause is longer than the tautology. */
  lemma ClauseLength(f: FilterDef, selected: SelectedMap, cast: bool)
    ensures ClauseOf(f, selected, cast).Some? ==> |ClauseOf(f, selected, cast).value| > 3
  {
  }

  lemma {:induction false} ClausesLength(filters: seq<FilterDef>, selected: SelectedMap, cast: bool)
    ensures forall i :: 0 <= i < |Clauses(filters, selected, cast)| ==> |Clauses(filters, selected, cast)[i]| > 3
  {
    if filters != [] {
      var n := |filters| - 1;
      ClausesLength(filters[..n], selected, cast);
      ClauseLength(filters[n], selected, cast);
    }
  }

  lemma {:induction false} JoinLength(xs: seq<string>, sep: string)
    requires |xs| > 0
    ensures |Join(xs, sep)| >= |xs[0]|
  {
  }

  /** The result is `1=1` exactly when no filter produced a clause. */
  lemma WhereTautology(cfg: QueryConfig, selected: SelectedMap)
    ensures Where(cfg, selected) == "1=1" <==> Clauses(cfg.filters, selected, cfg.castYearAsInt) == []
  {
    var parts := Clauses(cfg.filters, selected, cfg.castYearAsInt);
    if parts != [] {
      ClausesLength(cfg.filters, selected, cfg.castYearAsInt);
      JoinLength(parts, " AND ");
    }
  }

  /** A range bound of 0, NaN or null is treated exactly like a missing one. */
  lemma FalsyBoundIsMissing(fld: string, bound: Option<Selection>, other: Option<Selection>)
    requires !SelectionTruthy(bound)
    ensures RangeClause(fld, bound, other) == RangeClause(fld, None, other)
    ensures RangeClause(fld, other, bound) == RangeClause(fld, other, None)
  {
  }

  /** A list filter of any type other than `state` or `forest` reads the
      cause selection, exactly as a `cause` filter does; an empty or absent
      selection adds no clause. */
  lemma OtherKindsReadCause(kind: string, field: string, selected: SelectedMap, cast: bool)
    ensures kind != "state" && kind != "forest" ==>
      ClauseOf(InList(kind, field), selected, cast) == ClauseOf(InList("cause", field), selected, cast)
    ensures ClauseOf(InList(kind, field), selected, cast).Some? <==>
      SelectorKey(kind) in selected && selected[SelectorKey(kind)].Codes? && |selected[SelectorKey(kind)].codes| > 0
  {
  }

  /** Only range filters are cast: a list filter's clause does not depend on
      `castYearAsInt`, and a range filter's uses the cast field reference. */
  lemma CastOnlyRanges(kind: string, field: string, fromSel: string, toSel: string, selected: SelectedMap)
    ensures ClauseOf(InList(kind, field), selected, true) == ClauseOf(InList(kind, field), selected, false)
    ensures ClauseOf(YearRange(field, fromSel, toSel), selected, true)
         == ClauseOf(YearRange("CAST(" + field + " AS INT)", fromSel, toSel), selected, false)
  {
  }

  // ----- The list literal reads back -----

  /** Reads the body of a quoted SQL literal, up to and including its closing
      quote (`''` stands for one quote); gives the value and what follows. */
  function ReadQuoted(s: string): (r: Option<(string, string)>)
    ensures r.Some? ==> |r.value.1| < |s|
  {
    if s == [] then None
    else if s[0] == '\'' then
      if |s| >= 2 && s[1] == '\'' then
        match ReadQuoted(s[2..])
        case None => None
        case Some((v, rest)) => Some(("'" + v, rest))
      else Some(("", s[1..]))
    else
      match ReadQuoted(s[1..])
      case None => None
      case Some((v, rest)) => Some(([s[0]] + v, rest))
  }

  /** Reads a comma-separated list of quoted SQL literals. */
  function ParseQuotedList(s: string): Option<seq<string>>
    decreases |s|
  {
    if s == [] || s[0] != '\'' then None
    else
      match ReadQuoted(s[1..])
      case None => None
      case Some((v, rest)) =>
        if rest == [] then Some([v])
        else if rest[0] == ',' then
          match ParseQuotedList(rest[1..])
          case None => None
          case Some(vs) => Some([v] + vs)
        else None
  }

  /** A doubled quote reads as one quote of the value. */
  lemma ReadDoubledQuote(tail: string)
    ensures ReadQuoted("''" + tail) == match ReadQuoted(tail)
      case None => None
      case Some((v, rest)) => Some(("'" + v, rest))
  {
    assert ("''" + tail)[2..] == tail;
  }

  /** Any other character reads as itself. */
  lemma ReadPlainChar(c: char, tail: string)
    requires c != '\''
    ensures ReadQuoted([c] + tail) == match ReadQuoted(tail)
      case None => None
      case Some((v, rest)) => Some(([c] + v, rest))
  {
    assert ([c] + tail)[1..] == tail;
  }

  /** Escaping a value puts the escape of its first character before the
      escape of the rest. */
  lemma EscapeCons(v: string, rest: string)
    requires v != []
    ensures EscapeQuotes(v) + "'" + rest
         == (if v[0] == '\'' then "''" else [v[0]]) + (EscapeQuotes(v[1..]) + "'" + rest)
  {
  }

  /** One character of an escaped value reads back, given that the rest does. */
  lemma ReadEscapedStep(v: string, rest: string)
    requires v != []
    requires ReadQuoted(EscapeQuotes(v[1..]) + "'" + rest) == Some((v[1..], rest))
    ensures ReadQuoted(EscapeQuotes(v) + "'" + rest) == Some((v, rest))
  {
    var tail := EscapeQuotes(v[1..]) + "'" + rest;
    EscapeCons(v, rest);
    if v[0] == '\'' {
      ReadDoubledQuote(tail);
      assert "'" + v[1..] == v;
    } else {
      ReadPlainChar(v[0], tail);
      assert [v[0]] + v[1..] == v;
    }
  }

  /** Un-doubling the quotes of an escaped value recovers it exactly. */
  lemma {:induction false} ReadQuotedEscaped(v: string, rest: string)
    requires rest == [] || rest[0] != '\''
    ensures ReadQuoted(EscapeQuotes(v) + "'" + rest) == Some((v, rest))
  {
    if v == [] {
      assert EscapeQuotes(v) + "'" + rest == "'" + rest;
    } else {
      ReadQuotedEscaped(v[1..], rest);
      ReadEscapedStep(v, rest);
    }
  }

  lemma ParseQuotedSingle(v: string)
    ensures ParseQuotedList(Quote(v)) == Some([v])
  {
    var s := Quote(v);
    ReadQuotedEscaped(v, "");
    assert s[0] == '\'' && s[1..] == EscapeQuotes(v) + "'" + "";
  }

  lemma ParseQuotedStep(v: string, tail: string, vs: seq<string>)
    requires ParseQuotedList(tail) == Some(vs)
    ensures ParseQuotedList(Quote(v) + "," + tail) == Some([v] + vs)
  {
    var rest := "," + tail;
    var s := Quote(v) + "," + tail;
    ReadQuotedEscaped(v, rest);
    assert s[0] == '\'' && s[1..] == EscapeQuotes(v) + "'" + rest;
    assert rest[0] == ',' && rest[1..] == tail;
  }

  lemma {:induction false} ParseQuotedJoin(vals: seq<string>)
    requires |vals| > 0
    ensures ParseQuotedList(Join(Quoted(vals), ",")) == Some(vals)
  {
    var q := Quoted(vals);
    assert q[0] == Quote(vals[0]) && q[1..] == Quoted(vals[1..]);
    if |vals| == 1 {
      ParseQuotedSingle(vals[0]);
      assert Join(q, ",") == q[0];
      assert vals == [vals[0]];
    } else {
      ParseQuotedJoin(vals[1..]);
      ParseQuotedStep(vals[0], Join(Quoted(vals[1..]), ","), vals[1..]);
      assert [vals[0]] + vals[1..] == vals;
    }
  }

  lemma NoCommaInNumber(v: string)
    requires IsNumericLike(v)
    ensures ',' !in Trim(v)
  {
    DecimalHasNoComma(Trim(v));
  }

  lemma DecimalHasNoComma(t: string)
    requires IsDecimalLiteral(t)
    ensures forall i :: 0 <= i < |t| ==> t[i] != ','
  {
    var u := if |t| > 0 && t[0] == '-' then t[1..] else t;
    if '.' in u {
      var k := IndexOf(u, '.');
      forall i | 0 <= i < |u| ensures u[i] != ',' {
        if i < k {
          assert u[..k][i] == u[i];
        } else if i > k {
          assert u[k + 1..][i - k - 1] == u[i];
        }
      }
    }
  }

  lemma {:induction false} NumbersHaveNoComma(vals: seq<string>)
    requires AllNumericLike(vals)
    ensures forall i :: 0 <= i < |Trimmed(vals)| ==> ',' !in Trimmed(vals)[i]
  {
    if vals != [] {
      NumbersHaveNoComma(vals[1..]);
      NoCommaInNumber(vals[0]);
      assert Trimmed(vals)[1..] == Trimmed(vals[1..]);
    }
  }

  /** The list literal reads back as what was selected. A numeric list
      splits on commas into the trimmed values; any other list parses as
      quoted literals into the original values, so each value — numeric-
      looking ones included — was quoted and its quotes doubled. */
  lemma SqlListReadsBack(vals: seq<string>)
    requires |vals| > 0
    ensures AllNumericLike(vals) ==> Split(SqlList(vals), ',') == Trimmed(vals)
    ensures !AllNumericLike(vals) ==> ParseQuotedList(SqlList(vals)) == Some(vals)
  {
    if AllNumericLike(vals) {
      NumbersHaveNoComma(vals);
      SplitJoin(Trimmed(vals), ',');
    } else {
      ParseQuotedJoin(vals);
    }
  }
}
