/** The list logic of src/components/Filters/MultiSelectDropdown.tsx: which
    options are ticked, how a click changes the chosen list, and the
    summary text on the closed dropdown. */
module MultiSelect {
  import opened Wrappers
  import opened Strings

  /** `isChecked(opt)`. */
  predicate IsChecked(value: seq<string>, opt: string) {
    opt in value
  }

  /** `value.filter(v => v !== opt)`. */
  function Without(value: seq<string>, opt: string): (r: seq<string>)
    ensures |r| <= |value|
    ensures forall v :: v in r <==> v in value && v != opt
  {
    if value == [] then []
    else
      (if value[0] == opt then [] else [value[0]]) + Without(value[1..], opt)
  }

  /** `toggleOpt(opt)`: a chosen option is removed everywhere it occurs, any
      other is appended. */
  function Toggle(value: seq<string>, opt: string): seq<string> {
    if IsChecked(value, opt) then Without(value, opt) else value + [opt]
  }

  /** Removal keeps every other option as often as it occurred. */
  lemma {:induction false} WithoutCounts(value: seq<string>, opt: string)
    ensures multiset(Without(value, opt)) == multiset(value)[opt := 0]
  {
    if value != [] {
      WithoutCounts(value[1..], opt);
      assert value == [value[0]] + value[1..];
    }
  }

  /** A click flips the clicked option and leaves every other one as it was. */
  lemma ToggleFlips(value: seq<string>, opt: string)
    ensures IsChecked(Toggle(value, opt), opt) <==> !IsChecked(value, opt)
    ensures forall other :: other != opt ==> (IsChecked(Toggle(value, opt), other) <==> IsChecked(value, other))
  {
  }

  /** Removing an option that is not there changes nothing. */
  lemma {:induction false} WithoutAbsent(value: seq<string>, opt: string)
    requires opt !in value
    ensures Without(value, opt) == value
  {
    if value != [] {
      WithoutAbsent(value[1..], opt);
      assert [value[0]] + value[1..] == value;
    }
  }

  lemma {:induction false} WithoutAppend(a: seq<string>, b: seq<string>, opt: string)
    ensures Without(a + b, opt) == Without(a, opt) + Without(b, opt)
  {
    if a == [] {
      assert a + b == b;
    } else {
      WithoutAppend(a[1..], b, opt);
      var h := if a[0] == opt then [] else [a[0]];
      assert (a + b)[0] == a[0] && (a + b)[1..] == a[1..] + b;
      calc {
        Without(a + b, opt);
        h + Without(a[1..] + b, opt);
        h + (Without(a[1..], opt) + Without(b, opt));
        (h + Without(a[1..], opt)) + Without(b, opt);
      }
    }
  }

  /** Clicking an option that is not chosen twice restores the list. */
  lemma ToggleTwice(value: seq<string>, opt: string)
    requires !IsChecked(value, opt)
    ensures Toggle(Toggle(value, opt), opt) == value
  {
    WithoutAppend(value, [opt], opt);
    WithoutAbsent(value, opt);
    assert Without([opt], opt) == [];
  }

  /** Clicking a chosen option removes it and keeps the others in order. */
  lemma ToggleRemoves(value: seq<string>, opt: string, i: nat)
    requires i < |value| && value[i] == opt
    ensures Toggle(value, opt) == Without(value[..i], opt) + Without(value[i + 1..], opt)
  {
    assert IsChecked(value, opt);
    var tail := value[i..];
    assert value == value[..i] + tail;
    WithoutAppend(value[..i], tail, opt);
    assert tail[0] == opt && tail[1..] == value[i + 1..];
    assert Without(tail, opt) == Without(value[i + 1..], opt);
  }

  /** The closed dropdown's text: the placeholder when nothing is chosen,
      the chosen names when there are one or two, otherwise the first two
      and how many more there are. */
  function Label(value: seq<string>, placeholder: string): (r: string)
    ensures |value| == 0 ==> r == placeholder
    ensures 0 < |value| <= 2 ==> r == Join(value, ", ")
    ensures |value| > 2 ==> r == value[0] + ", " + value[1] + " +" + IntToString(|value| - 2)
  {
    if |value| == 0 then placeholder
    else if |value| <= 2 then Join(value, ", ")
    else
      assert Join(value[..2], ", ") == value[0] + ", " + value[1] by {
        assert value[..2][1..] == [value[1]];
      }
      Join(value[..2], ", ") + " +" + IntToString(|value| - 2)
  }

  /** Clicking an option that is not chosen appends it after the chosen
      ones, which stay in order: removing it again gives the old list, and
      once two names are chosen the summary keeps showing the same first
      two and counts one more. */
  lemma ToggleAppends(value: seq<string>, opt: string, placeholder: string)
    requires !IsChecked(value, opt)
    ensures |Toggle(value, opt)| == |value| + 1
    ensures Toggle(value, opt)[..|value|] == value && Toggle(value, opt)[|value|] == opt
    ensures Without(Toggle(value, opt), opt) == value
    ensures |value| >= 2 ==>
      Label(Toggle(value, opt), placeholder) == value[0] + ", " + value[1] + " +" + IntToString(|value| - 1)
  {
    ToggleTwice(value, opt);
  }

  /** The text after the last occurrence of `c` in `s`, or all of `s`. */
  function AfterLast(s: string, c: char): (r: string)
    ensures c !in r
  {
    if s == [] then []
    else if s[|s| - 1] == c then []
    else AfterLast(s[..|s| - 1], c) + [s[|s| - 1]]
  }

  /** Whatever comes before it, the text after the last `c` of `a + [c] + t`
      is `t` when `t` holds no `c`. */
  lemma {:induction false} AfterLastOf(a: string, c: char, t: string)
    requires c !in t
    ensures AfterLast(a + [c] + t, c) == t
  {
    var s := a + [c] + t;
    if t == [] {
      assert s[|s| - 1] == c;
    } else {
      var n := |t| - 1;
      assert s[..|s| - 1] == a + [c] + t[..n];
      assert t[n] in t;
      AfterLastOf(a, c, t[..n]);
      assert t[..n] + [t[n]] == t;
    }
  }

  /** A summary's count is the text after its last `+`, whatever the chosen
      names contain, and it reads back as the number of names not shown. */
  lemma LabelCountReadsBack(value: seq<string>, placeholder: string)
    requires |value| > 2
    ensures ParseInteger(AfterLast(Label(value, placeholder), '+')) == Some(|value| - 2)
  {
    var count := IntToString(|value| - 2);
    assert count == NatToString(|value| - 2);
    assert '+' !in count by {
      forall k | 0 <= k < |count| ensures count[k] != '+' {
        assert IsDigit(count[k]);
      }
    }
    assert Label(value, placeholder) == (value[0] + ", " + value[1] + " ") + ['+'] + count;
    AfterLastOf(value[0] + ", " + value[1] + " ", '+', count);
    ParseIntToString(|value| - 2);
  }
}
