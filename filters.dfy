/** The option and selection logic of src/components/Filters/Filters.tsx:
    where each dropdown's options come from (a coded-value domain of the
    layer, or the distinct values of its field), the code/name translation
    between what the multi-select shows and what is stored, and the
    selection state with its apply and reset buttons. */
module Filters {
  import opened Wrappers
  import opened Values
  import opened Strings
  import opened Collections

  /** One option of a dropdown: the stored code and the shown name. */
  datatype Labeled = Labeled(code: string, name: string)

  /** A dropdown's configuration. */
  datatype DropdownConfig = DropdownConfig(id: string, selectedTextId: string, fieldName: string, isMultiSelect: bool)

  /** One entry of a field domain's `codedValues`. */
  datatype CodedValue = CodedValue(code: Scalar, name: Scalar)

  /** A layer field as domain extraction sees it: `codedValues` is `None`
      when the field has no domain or its `codedValues` is not an array. */
  datatype LayerField = LayerField(name: string, codedValues: Option<seq<CodedValue>>)

  // ----- Year dropdowns (lines 21-24, 103, 117) -----

  predicate IsYearDropdown(d: DropdownConfig) {
    UpperEquals(d.fieldName, "YEAR_")
  }

  /** `yearDropdownIds`: the selection keys of the dropdowns on the year field. */
  function YearDropdownIds(dropdowns: seq<DropdownConfig>): (ids: seq<string>)
    ensures forall key :: key in ids <==>
      exists i :: 0 <= i < |dropdowns| && dropdowns[i].selectedTextId == key && IsYearDropdown(dropdowns[i])
  {
    if dropdowns == [] then []
    else
      var rest := YearDropdownIds(dropdowns[1..]);
      assert forall i :: 1 <= i < |dropdowns| ==> dropdowns[i] == dropdowns[1..][i - 1];
      assert forall key :: key in rest ==>
        exists i :: 0 <= i < |dropdowns| && dropdowns[i].selectedTextId == key && IsYearDropdown(dropdowns[i]) by {
        forall key | key in rest
          ensures exists i :: 0 <= i < |dropdowns| && dropdowns[i].selectedTextId == key && IsYearDropdown(dropdowns[i])
        {
          var i :| 0 <= i < |dropdowns[1..]| && dropdowns[1..][i].selectedTextId == key && IsYearDropdown(dropdowns[1..][i]);
          assert dropdowns[i + 1] == dropdowns[1..][i];
        }
      }
      (if IsYearDropdown(dropdowns[0]) then [dropdowns[0].selectedTextId] else []) + rest
  }

  /** A dropdown is shown as a multi-select when so configured and its key
      is not a year dropdown's. */
  predicate UsesMultiSelect(d: DropdownConfig, yearIds: seq<string>) {
    d.isMultiSelect && d.selectedTextId !in yearIds
  }

  /** Year dropdowns are always single selects. */
  lemma YearDropdownIsSingle(dropdowns: seq<DropdownConfig>, i: nat)
    requires i < |dropdowns| && IsYearDropdown(dropdowns[i])
    ensures !UsesMultiSelect(dropdowns[i], YearDropdownIds(dropdowns))
  {
  }

  // ----- Coded-value domains (lines 36-45) -----

  /** `cvs.map(cv => ({ code: String(cv.code), name: String(cv.name) }))`. */
  function DomainLabels(cvs: seq<CodedValue>): (r: seq<Labeled>)
    ensures |r| == |cvs|
    ensures forall i :: 0 <= i < |cvs| ==> r[i] == Labeled(ToStr(cvs[i].code), ToStr(cvs[i].name))
  {
    seq(|cvs|, i requires 0 <= i < |cvs| => Labeled(ToStr(cvs[i].code), ToStr(cvs[i].name)))
  }

  /** `Array.isArray(cvs) && cvs.length`. */
  predicate HasDomain(f: LayerField) {
    f.codedValues.Some? && |f.codedValues.value| > 0
  }

  /** The writes the `forEach` makes, in order. */
  function DomainWrites(fields: seq<LayerField>): seq<(string, seq<Labeled>)> {
    if fields == [] then []
    else
      var n := |fields| - 1;
      DomainWrites(fields[..n])
        + (if HasDomain(fields[n]) then [(fields[n].name, DomainLabels(fields[n].codedValues.value))] else [])
  }

  /** `domainsByField`, filled by the `forEach` over the layer's fields. */
  method ExtractDomains(fields: seq<LayerField>) returns (domains: map<string, seq<Labeled>>)
    ensures domains == ToMap(DomainWrites(fields))
  {
    domains := map[];
    var i := 0;
    while i < |fields|
      invariant 0 <= i <= |fields|
      invariant domains == ToMap(DomainWrites(fields[..i]))
    {
      assert fields[..i + 1][..i] == fields[..i];
      var f := fields[i];
      if f.codedValues.Some? && |f.codedValues.value| > 0 {
        domains := domains[f.name := DomainLabels(f.codedValues.value)];
        assert DomainWrites(fields[..i + 1]) == DomainWrites(fields[..i]) + [(f.name, DomainLabels(f.codedValues.value))];
      } else {
        assert DomainWrites(fields[..i + 1]) == DomainWrites(fields[..i]);
      }
      i := i + 1;
    }
    assert fields[..i] == fields;
  }

  lemma DomainsStep(fields: seq<LayerField>)
    requires fields != []
    ensures var n := |fields| - 1;
      var f := fields[n];
      ToMap(DomainWrites(fields)) == if HasDomain(f)
        then ToMap(DomainWrites(fields[..n]))[f.name := DomainLabels(f.codedValues.value)]
        else ToMap(DomainWrites(fields[..n]))
  {
    var n := |fields| - 1;
    var w := DomainWrites(fields[..n]);
    if HasDomain(fields[n]) {
      ToMapSnoc(w, (fields[n].name, DomainLabels(fields[n].codedValues.value)));
    } else {
      assert DomainWrites(fields) == w;
    }
  }

  /** A name gets a domain only from a field of that name with a non-empty
      list of coded values. */
  lemma {:induction false} DomainPresent(fields: seq<LayerField>, name: string)
    ensures name in ToMap(DomainWrites(fields)) <==>
      exists i :: 0 <= i < |fields| && fields[i].name == name && HasDomain(fields[i])
  {
    if fields != [] {
      var n := |fields| - 1;
      var prefix := fields[..n];
      DomainPresent(prefix, name);
      DomainsStep(fields);
      if exists i :: 0 <= i < |fields| && fields[i].name == name && HasDomain(fields[i]) {
        var i :| 0 <= i < |fields| && fields[i].name == name && HasDomain(fields[i]);
        if i < n {
          assert prefix[i] == fields[i];
        }
      }
    }
  }

  /** When several fields share a name, the last one with coded values
      decides the domain. */
  lemma {:induction false} DomainOfLast(fields: seq<LayerField>, i: nat)
    requires i < |fields| && HasDomain(fields[i])
    requires forall j :: i < j < |fields| && fields[j].name == fields[i].name ==> !HasDomain(fields[j])
    ensures fields[i].name in ToMap(DomainWrites(fields))
    ensures ToMap(DomainWrites(fields))[fields[i].name] == DomainLabels(fields[i].codedValues.value)
  {
    var n := |fields| - 1;
    DomainsStep(fields);
    if i < n {
      var prefix := fields[..n];
      DomainOfLast(prefix, i);
    }
  }

  // ----- The distinct-value fallback (lines 47-65) -----

  /** `v !== null && v !== undefined && v !== ""`. */
  predicate IsListed(v: Option<Scalar>) {
    v != None && v != Some(Null) && v != Some(Str(""))
  }

  /** The stringified listed values of `field`, in row order. */
  function ListedValues(rows: seq<Row>, field: string): (r: seq<string>)
    ensures forall c :: c in r <==>
      exists j :: 0 <= j < |rows| && IsListed(Attr(rows[j], field)) && ToStr(Attr(rows[j], field).value) == c
  {
    if rows == [] then []
    else
      var v := Attr(rows[0], field);
      var rest := ListedValues(rows[1..], field);
      assert forall j :: 1 <= j < |rows| ==> rows[j] == rows[1..][j - 1];
      assert forall c :: c in rest ==> exists j :: 0 <= j < |rows| && IsListed(Attr(rows[j], field)) && ToStr(Attr(rows[j], field).value) == c by {
        forall c | c in rest
          ensures exists j :: 0 <= j < |rows| && IsListed(Attr(rows[j], field)) && ToStr(Attr(rows[j], field).value) == c
        {
          var j :| 0 <= j < |rows[1..]| && IsListed(Attr(rows[1..][j], field)) && ToStr(Attr(rows[1..][j], field).value) == c;
          assert rows[j + 1] == rows[1..][j];
        }
      }
      (if IsListed(v) then [ToStr(v.value)] else []) + rest
  }

  /** Listing a batch of rows after another lists the first batch's values,
      then the second's: the values keep the order of the rows. */
  lemma {:induction false} ListedValuesAppend(a: seq<Row>, b: seq<Row>, field: string)
    ensures ListedValues(a + b, field) == ListedValues(a, field) + ListedValues(b, field)
  {
    if a == [] {
      assert a + b == b;
    } else {
      ListedValuesAppend(a[1..], b, field);
      assert (a + b)[0] == a[0] && (a + b)[1..] == a[1..] + b;
    }
  }

  /** One row lists its stringified value exactly when that value is listed. */
  lemma ListedValuesOne(row: Row, field: string)
    ensures ListedValues([row], field)
         == if IsListed(Attr(row, field)) then [ToStr(Attr(row, field).value)] else []
  {
  }

  /** `uniq.map(v => ({ code: v, name: v }))`. */
  function IdentityLabels(vals: seq<string>): (r: seq<Labeled>)
    ensures |r| == |vals| && forall i :: 0 <= i < |vals| ==> r[i] == Labeled(vals[i], vals[i])
  {
    seq(|vals|, i requires 0 <= i < |vals| => Labeled(vals[i], vals[i]))
  }

  /** The options built from a distinct-values query. */
  function DistinctOptions(rows: seq<Row>, field: string): seq<Labeled> {
    IdentityLabels(Distinct(ListedValues(rows, field)))
  }

  function Codes(list: seq<Labeled>): (r: seq<string>)
    ensures |r| == |list| && forall i :: 0 <= i < |list| ==> r[i] == list[i].code
  {
    seq(|list|, i requires 0 <= i < |list| => list[i].code)
  }

  function Names(list: seq<Labeled>): (r: seq<string>)
    ensures |r| == |list| && forall i :: 0 <= i < |list| ==> r[i] == list[i].name
  {
    seq(|list|, i requires 0 <= i < |list| => list[i].name)
  }

  /** The fallback options: one per distinct listed value (null, missing and
      empty values dropped), code equal to name, in order of first
      appearance. */
  lemma DistinctOptionsMeaning(rows: seq<Row>, field: string)
    ensures var r := DistinctOptions(rows, field);
      && (forall i :: 0 <= i < |r| ==> r[i].code == r[i].name)
      && NoDuplicates(Codes(r))
      && (forall c :: c in Codes(r) <==>
            exists j :: 0 <= j < |rows| && IsListed(Attr(rows[j], field)) && ToStr(Attr(rows[j], field).value) == c)
      && (forall i, j :: 0 <= i < j < |r| ==>
            FirstIndex(ListedValues(rows, field), r[i].code) < FirstIndex(ListedValues(rows, field), r[j].code))
  {
    var vals := ListedValues(rows, field);
    var d := Distinct(vals);
    assert Codes(DistinctOptions(rows, field)) == d;
    DistinctFirstSeenOrder(vals);
  }

  /** `loadDistinctWithLabels(field)`: the field's coded domain when it has
      one, otherwise the distinct-values options of the queried rows. */
  function LoadOptions(domains: map<string, seq<Labeled>>, field: string, queried: seq<Row>): (r: seq<Labeled>)
    ensures field in domains ==> r == domains[field]
    ensures field !in domains ==> r == DistinctOptions(queried, field)
  {
    if field in domains then domains[field] else DistinctOptions(queried, field)
  }

  // ----- Collecting the options (lines 67-74) -----

  /** The rows a distinct query on `field` returned (none when not given). */
  function RowsFor(queried: map<string, seq<Row>>, field: string): seq<Row> {
    if field in queried then queried[field] else []
  }

  /** `pairs`: each dropdown's key with its loaded options, in dropdown order. */
  function OptionPairs(dropdowns: seq<DropdownConfig>, domains: map<string, seq<Labeled>>,
                       queried: map<string, seq<Row>>): (r: seq<(string, seq<Labeled>)>)
    ensures |r| == |dropdowns|
    ensures forall i :: 0 <= i < |dropdowns| ==>
      r[i] == (dropdowns[i].selectedTextId, LoadOptions(domains, dropdowns[i].fieldName, RowsFor(queried, dropdowns[i].fieldName)))
  {
    seq(|dropdowns|, i requires 0 <= i < |dropdowns| =>
      (dropdowns[i].selectedTextId, LoadOptions(domains, dropdowns[i].fieldName, RowsFor(queried, dropdowns[i].fieldName))))
  }

  /** `pairs.forEach(([k, v]) => (next[k] = v))`. */
  method CollectOptions(pairs: seq<(string, seq<Labeled>)>) returns (next: map<string, seq<Labeled>>)
    ensures next == ToMap(pairs)
  {
    next := map[];
    var i := 0;
    while i < |pairs|
      invariant 0 <= i <= |pairs|
      invariant next == ToMap(pairs[..i])
    {
      assert pairs[..i + 1][..i] == pairs[..i];
      next := next[pairs[i].0 := pairs[i].1];
      i := i + 1;
    }
    assert pairs[..i] == pairs;
  }

  /** Every dropdown key gets options, and when dropdowns share a key the
      last of them decides them. */
  lemma CollectedOptions(dropdowns: seq<DropdownConfig>, domains: map<string, seq<Labeled>>,
                         queried: map<string, seq<Row>>, i: nat)
    requires i < |dropdowns|
    requires forall j :: i < j < |dropdowns| ==> dropdowns[j].selectedTextId != dropdowns[i].selectedTextId
    ensures var next := ToMap(OptionPairs(dropdowns, domains, queried));
      && dropdowns[i].selectedTextId in next
      && next[dropdowns[i].selectedTextId]
         == LoadOptions(domains, dropdowns[i].fieldName, RowsFor(queried, dropdowns[i].fieldName))
  {
    var pairs := OptionPairs(dropdowns, domains, queried);
    LastWithAt(pairs, i, dropdowns[i].selectedTextId);
  }

  // ----- Code / name translation (lines 89-97) -----

  /** `options[key] || []`. */
  function OptionsFor(options: map<string, seq<Labeled>>, key: string): seq<Labeled> {
    if key in options then options[key] else []
  }

  function CodeNamePairs(list: seq<Labeled>): (r: seq<(string, string)>)
    ensures |r| == |list| && forall i :: 0 <= i < |list| ==> r[i] == (list[i].code, list[i].name)
  {
    seq(|list|, i requires 0 <= i < |list| => (list[i].code, list[i].name))
  }

  function NameCodePairs(list: seq<Labeled>): (r: seq<(string, string)>)
    ensures |r| == |list| && forall i :: 0 <= i < |list| ==> r[i] == (list[i].name, list[i].code)
  {
    seq(|list|, i requires 0 <= i < |list| => (list[i].name, list[i].code))
  }

  /** `map.get(k) || k` on a `Map` built from `pairs`. */
  function GetOrSelf(pairs: seq<(string, string)>, k: string): string {
    match LastWith(pairs, k)
    case Some(v) => if v != "" then v else k
    case None => k
  }

  /** `codeToName`: each code becomes its option's name. */
  function CodeToName(list: seq<Labeled>, codes: seq<string>): (r: seq<string>)
    ensures |r| == |codes|
    ensures forall i :: 0 <= i < |codes| ==> r[i] == GetOrSelf(CodeNamePairs(list), codes[i])
  {
    seq(|codes|, i requires 0 <= i < |codes| => GetOrSelf(CodeNamePairs(list), codes[i]))
  }

  /** `nameToCode`: each name becomes its option's code. */
  function NameToCode(list: seq<Labeled>, names: seq<string>): (r: seq<string>)
    ensures |r| == |names|
    ensures forall i :: 0 <= i < |names| ==> r[i] == GetOrSelf(NameCodePairs(list), names[i])
  {
    seq(|names|, i requires 0 <= i < |names| => GetOrSelf(NameCodePairs(list), names[i]))
  }

  /** The code of the last option with code `c` decides its name; an empty
      name falls back to the code. */
  lemma CodeToNameLastWins(list: seq<Labeled>, i: nat, c: string)
    requires i < |list| && list[i].code == c
    requires forall j :: i < j < |list| ==> list[j].code != c
    ensures CodeToName(list, [c]) == [if list[i].name != "" then list[i].name else c]
  {
    LastWithAt(CodeNamePairs(list), i, c);
  }

  /** The name of the last option with name `n` decides its code; an empty
      code falls back to the name. */
  lemma NameToCodeLastWins(list: seq<Labeled>, i: nat, n: string)
    requires i < |list| && list[i].name == n
    requires forall j :: i < j < |list| ==> list[j].name != n
    ensures NameToCode(list, [n]) == [if list[i].code != "" then list[i].code else n]
  {
    LastWithAt(NameCodePairs(list), i, n);
  }

  /** A code no option has, and a name no option has, are returned unchanged. */
  lemma UnknownUnchanged(list: seq<Labeled>, s: string)
    ensures (forall j :: 0 <= j < |list| ==> list[j].code != s) ==> CodeToName(list, [s]) == [s]
    ensures (forall j :: 0 <= j < |list| ==> list[j].name != s) ==> NameToCode(list, [s]) == [s]
  {
    LastWithMeaning(CodeNamePairs(list), s);
    LastWithMeaning(NameCodePairs(list), s);
  }

  /** Options whose codes are distinct and non-empty and whose names are
      distinct and non-empty translate one-to-one. */
  predicate OneToOne(list: seq<Labeled>) {
    && NoDuplicates(Codes(list)) && NoDuplicates(Names(list))
    && forall i :: 0 <= i < |list| ==> list[i].code != "" && list[i].name != ""
  }

  /** Under a one-to-one list, option `i`'s code translates to its name and
      its name to its code. */
  lemma LookupUnique(list: seq<Labeled>, i: nat)
    requires OneToOne(list) && i < |list|
    ensures GetOrSelf(CodeNamePairs(list), list[i].code) == list[i].name
    ensures GetOrSelf(NameCodePairs(list), list[i].name) == list[i].code
  {
    forall j | i < j < |list| ensures list[j].code != list[i].code && list[j].name != list[i].name {
      assert Codes(list)[j] != Codes(list)[i];
      assert Names(list)[j] != Names(list)[i];
    }
    LastWithAt(CodeNamePairs(list), i, list[i].code);
    LastWithAt(NameCodePairs(list), i, list[i].name);
  }

  /** Translating the codes of such options to names and back gives the codes. */
  lemma CodeNameRoundTrip(list: seq<Labeled>, codes: seq<string>)
    requires OneToOne(list)
    requires forall k :: 0 <= k < |codes| ==> codes[k] in Codes(list)
    ensures NameToCode(list, CodeToName(list, codes)) == codes
  {
    var names := CodeToName(list, codes);
    forall k | 0 <= k < |codes| ensures NameToCode(list, names)[k] == codes[k] {
      var i :| 0 <= i < |list| && Codes(list)[i] == codes[k];
      LookupUnique(list, i);
    }
  }

  /** Translating the names of such options to codes and back gives the names. */
  lemma NameCodeRoundTrip(list: seq<Labeled>, names: seq<string>)
    requires OneToOne(list)
    requires forall k :: 0 <= k < |names| ==> names[k] in Names(list)
    ensures CodeToName(list, NameToCode(list, names)) == names
  {
    var codes := NameToCode(list, names);
    forall k | 0 <= k < |names| ensures CodeToName(list, codes)[k] == names[k] {
      var i :| 0 <= i < |list| && Names(list)[i] == names[k];
      LookupUnique(list, i);
    }
  }

  // ----- The selection state (lines 18-19, 72-74, 82-87, 120-136) -----

  /** What a single select stores for the chosen option value: `null` for
      the empty choice, otherwise `Number(value)`. */
  function SingleValue(value: string): (r: Selection)
    ensures value == "" <==> r == NullSel
    ensures value != "" && ParseInteger(value).Some? ==> r == Number(ParseInteger(value).value)
    ensures value != "" && ParseInteger(value).None? ==> r == NaN
  {
    if value == "" then NullSel
    else match ParseInteger(value)
      case Some(n) => Number(n)
      case None => NaN
  }

  /** The `options` and `selected` state of the filter bar. */
  class FilterPanel {
    var options: map<string, seq<Labeled>>
    var selected: map<string, Selection>

    constructor ()
      ensures options == map[] && selected == map[]
    {
      options := map[];
      selected := map[];
    }

    /** `setOptions(next)` once the options are loaded. */
    method SetOptions(next: map<string, seq<Labeled>>)
      modifies this
      ensures options == next && selected == old(selected)
    {
      options := next;
    }

    /** The names a multi-select shows: its stored codes translated. */
    function ShownNames(key: string): (r: seq<string>)
      reads this
      ensures key in selected && selected[key].Codes? ==>
        r == CodeToName(OptionsFor(options, key), selected[key].codes)
      ensures !(key in selected && selected[key].Codes?) ==> r == []
    {
      if key in selected && selected[key].Codes? then CodeToName(OptionsFor(options, key), selected[key].codes)
      else []
    }

    /** A multi-select's `onChange`: the chosen names are stored as codes. */
    method ChooseNames(key: string, names: seq<string>)
      modifies this
      ensures selected == old(selected)[key := Codes(NameToCode(OptionsFor(options, key), names))]
      ensures options == old(options)
    {
      var codes := NameToCode(OptionsFor(options, key), names);
      selected := selected[key := Codes(codes)];
    }

    /** A single select's `onChange`. */
    method ChooseValue(key: string, value: string)
      modifies this
      ensures selected == old(selected)[key := SingleValue(value)]
      ensures options == old(options)
    {
      selected := selected[key := SingleValue(value)];
    }

    /** `apply`: reports the current selection. */
    method Apply() returns (applied: map<string, Selection>)
      ensures applied == selected
    {
      applied := selected;
    }

    /** `reset`: clears the selection and reports the empty selection. */
    method Reset() returns (applied: map<string, Selection>)
      modifies this
      ensures selected == map[] && applied == map[]
      ensures options == old(options)
    {
      selected := map[];
      applied := map[];
    }
  }

  /** Choosing names of one-to-one options and showing them again gives the
      chosen names back. */
  lemma ChosenNamesShown(options: map<string, seq<Labeled>>, key: string, names: seq<string>)
    requires OneToOne(OptionsFor(options, key))
    requires forall k :: 0 <= k < |names| ==> names[k] in Names(OptionsFor(options, key))
    ensures CodeToName(OptionsFor(options, key), NameToCode(OptionsFor(options, key), names)) == names
  {
    NameCodeRoundTrip(OptionsFor(options, key), names);
  }
}
