/**
 * The browse page's helpers: how tags and category names are shown, how
 * a price field is cleaned while it is typed, and how the search form
 * becomes the store's criteria.
 */
module Browse {
  import opened Wrappers
  import opened Text
  import opened Products
  import opened Catalog

  // ---------------------------------------------------------------------
  // Showing tags and names
  // ---------------------------------------------------------------------

  /**
   * Where the lazy `.*?` of `^\[.*?\]` stops when it starts at `from`: the
   * first `]` or line terminator, or the end of the tag.
   */
  function StopAt(tag: string, from: nat): (j: nat)
    requires from <= |tag|
    ensures from <= j <= |tag|
    ensures forall i :: from <= i < j ==> tag[i] != ']' && !IsLineTerminator(tag[i])
    ensures j < |tag| ==> tag[j] == ']' || IsLineTerminator(tag[j])
    decreases |tag| - from
  {
    if from == |tag| || tag[from] == ']' || IsLineTerminator(tag[from]) then from
    else StopAt(tag, from + 1)
  }

  /** The tag with the first match of `^\[.*?\]\s*` removed: drops a leading bracketed label and the white space after it. */
  function FormatTag(tag: string): (r: string)
    ensures tag == [] || tag[0] != '[' ==> r == tag
    ensures (forall i :: 0 <= i < |tag| ==> tag[i] != ']') ==> r == tag
    ensures r == tag || exists k :: 0 < k < |tag| && tag[k] == ']' && r == TrimStart(tag[k + 1..])
  {
    if |tag| > 0 && tag[0] == '[' then
      var j := StopAt(tag, 1);
      if j < |tag| && tag[j] == ']' then TrimStart(tag[j + 1..]) else tag
    else tag
  }

  /**
   * A tag made of a bracketed label on one line, white space, and a rest
   * that does not start with white space is shown as that rest.
   */
  lemma FormatTagStripsLabel(inner: string, w: string, rest: string)
    requires forall i :: 0 <= i < |inner| ==> inner[i] != ']' && !IsLineTerminator(inner[i])
    requires AllWhitespace(w)
    requires rest == [] || !IsWhitespace(rest[0])
    ensures FormatTag("[" + inner + "]" + w + rest) == rest
  {
    var tag := "[" + inner + "]" + w + rest;
    assert forall i :: 1 <= i <= |inner| ==> tag[i] == inner[i - 1];
    assert tag[|inner| + 1] == ']';
    assert StopAt(tag, 1) == |inner| + 1;
    assert tag[|inner| + 2..] == w + rest;
    TrimStartAfterWhitespace(w, rest);
  }

  /** The example of the source's documentation: `[1] Bedsheet Set` is shown as `Bedsheet Set`. */
  lemma FormatTagExample()
    ensures FormatTag("[1] Bedsheet Set") == "Bedsheet Set"
  {
    var tag := "[1] Bedsheet Set";
    assert tag[1] == '1' && tag[2] == ']';
    assert StopAt(tag, 1) == 2;
    assert tag[3..][1..] == tag[4..];
    assert TrimStart(tag[3..]) == TrimStart(tag[4..]);
    assert tag[4..] == "Bedsheet Set";
  }

  /** A label broken by a line terminator before its `]` is not stripped. */
  lemma FormatTagKeepsBrokenLabel(a: string, c: char, b: string)
    requires forall i :: 0 <= i < |a| ==> a[i] != ']'
    requires IsLineTerminator(c)
    ensures FormatTag("[" + a + [c] + b) == "[" + a + [c] + b
  {
    var tag := "[" + a + [c] + b;
    assert forall i :: 1 <= i <= |a| ==> tag[i] == a[i - 1];
    assert tag[|a| + 1] == c;
    assert StopAt(tag, 1) <= |a| + 1;
  }

  /** `s.charAt(0).toUpperCase() + s.slice(1)`. */
  function CapitalizeFirstLetter(s: string): (r: string)
    ensures |r| == |s|
    ensures s != [] ==> r[0] == UpperChar(s[0]) && r[1..] == s[1..]
  {
    if s == [] then [] else [UpperChar(s[0])] + s[1..]
  }

  lemma CapitalizeIdempotent(s: string)
    ensures CapitalizeFirstLetter(CapitalizeFirstLetter(s)) == CapitalizeFirstLetter(s)
  {
    if s != [] {
      var c := s[0];
      assert UpperChar(UpperChar(c)) == UpperChar(c);
    }
  }

  /** Capitalizing changes a name only up to letter case. */
  lemma CapitalizeKeepsLowerCase(s: string)
    ensures ToLower(CapitalizeFirstLetter(s)) == ToLower(s)
  {
    if s != [] {
      var r := CapitalizeFirstLetter(s);
      assert LowerChar(UpperChar(s[0])) == LowerChar(s[0]);
      assert forall i :: 1 <= i < |s| ==> r[i] == s[i];
    }
  }

  // ---------------------------------------------------------------------
  // The price fields
  // ---------------------------------------------------------------------

  function CountDots(s: string): nat
    decreases |s|
  {
    if s == [] then 0 else (if s[0] == '.' then 1 else 0) + CountDots(s[1..])
  }

  /** The digits of `s`, in order. */
  function DigitsOf(s: string): string
    decreases |s|
  {
    if s == [] then [] else (if IsDigit(s[0]) then [s[0]] else []) + DigitsOf(s[1..])
  }

  predicate NumericChars(s: string) {
    forall i :: 0 <= i < |s| ==> IsDigit(s[i]) || s[i] == '.'
  }

  /** `/^\d*\.?\d*$/.test(s)`. */
  predicate IsNumericText(s: string) {
    NumericChars(s) && CountDots(s) <= 1
  }

  lemma {:induction false} CountDotsConcat(a: string, b: string)
    ensures CountDots(a + b) == CountDots(a) + CountDots(b)
    decreases |a|
  {
    if a == [] {
      assert a + b == b;
    } else {
      assert (a + b)[1..] == a[1..] + b;
      CountDotsConcat(a[1..], b);
    }
  }

  lemma {:induction false} DigitsOfConcat(a: string, b: string)
    ensures DigitsOf(a + b) == DigitsOf(a) + DigitsOf(b)
    decreases |a|
  {
    if a == [] {
      assert a + b == b;
    } else {
      var h := if IsDigit(a[0]) then [a[0]] else [];
      assert (a + b)[0] == a[0];
      assert (a + b)[1..] == a[1..] + b;
      DigitsOfConcat(a[1..], b);
      calc {
        DigitsOf(a + b);
        h + DigitsOf(a[1..] + b);
        h + (DigitsOf(a[1..]) + DigitsOf(b));
        { ConcatAssociative(h, DigitsOf(a[1..]), DigitsOf(b)); }
        h + DigitsOf(a[1..]) + DigitsOf(b);
      }
    }
  }



  lemma {:induction false} NoDotsCount(s: string)
    requires forall j :: 0 <= j < |s| ==> s[j] != '.'
    ensures CountDots(s) == 0
    decreases |s|
  {
    if s != [] {
      NoDotsCount(s[1..]);
    }
  }

  /** `s.replace(/[^\d.]/g, '')`: the digits and dots of `s`, in order. */
  function KeepNumericChars(s: string): (r: string)
    ensures NumericChars(r)
    ensures CountDots(r) == CountDots(s) && DigitsOf(r) == DigitsOf(s)
    decreases |s|
  {
    if s == [] then []
    else
      var rest := KeepNumericChars(s[1..]);
      var head := if IsDigit(s[0]) || s[0] == '.' then [s[0]] else [];
      CountDotsConcat(head, rest);
      DigitsOfConcat(head, rest);
      head + rest
  }

  /** Keeping the digits and dots works character by character: it distributes over concatenation. */
  lemma {:induction false} KeepNumericCharsConcat(x: string, y: string)
    ensures KeepNumericChars(x + y) == KeepNumericChars(x) + KeepNumericChars(y)
    decreases |x|
  {
    if x == [] {
      assert x + y == y;
    } else {
      var h := if IsDigit(x[0]) || x[0] == '.' then [x[0]] else [];
      assert (x + y)[0] == x[0];
      assert (x + y)[1..] == x[1..] + y;
      KeepNumericCharsConcat(x[1..], y);
      ConcatAssociative(h, KeepNumericChars(x[1..]), KeepNumericChars(y));
    }
  }

  /** A single character is kept exactly when it is a digit or a dot. */
  lemma KeepNumericCharsChar(c: char)
    ensures KeepNumericChars([c]) == if IsDigit(c) || c == '.' then [c] else []
  {
    assert [c][1..] == [];
  }

  /**
   * `s.replace(/(\..*)\./g, '$1')` on a string of digits and dots: the
   * greedy `.*` reaches the last dot, so with two dots or more the last
   * dot goes and nothing else does.
   */
  function RemoveLastDot(s: string): (r: string)
    requires NumericChars(s)
    ensures NumericChars(r) && DigitsOf(r) == DigitsOf(s)
    ensures CountDots(r) == if CountDots(s) >= 2 then CountDots(s) - 1 else CountDots(s)
    ensures CountDots(s) >= 2 ==> LastDot(s) >= 0 && r == s[..LastDot(s)] + s[LastDot(s) + 1..]
    ensures CountDots(s) < 2 ==> r == s
  {
    if CountDots(s) >= 2 then
      var k := LastDot(s);
      if k == -1 then NoDotsCount(s); s
      else
        assert s == s[..k] + [s[k]] + s[k + 1..];
        CountDotsConcat(s[..k] + [s[k]], s[k + 1..]);
        CountDotsConcat(s[..k], [s[k]]);
        CountDotsConcat(s[..k], s[k + 1..]);
        DigitsOfConcat(s[..k] + [s[k]], s[k + 1..]);
        DigitsOfConcat(s[..k], [s[k]]);
        DigitsOfConcat(s[..k], s[k + 1..]);
        s[..k] + s[k + 1..]
    else s
  }

  /**
   * The new value of a price field after an input event, as written:
   * numeric text is kept; anything else loses its other characters and
   * then its last dot when it has two or more.
   */
  function ValidateNumberInput(v: string): (r: string)
    ensures IsNumericText(v) ==> r == v
    ensures NumericChars(r) && DigitsOf(r) == DigitsOf(v)
    ensures !IsNumericText(v) ==> CountDots(r) == if CountDots(v) >= 2 then CountDots(v) - 1 else CountDots(v)
    ensures CountDots(v) <= 2 ==> IsNumericText(r)
    ensures !IsNumericText(v) && CountDots(v) < 2 ==> r == KeepNumericChars(v)
    ensures !IsNumericText(v) && CountDots(v) >= 2 ==>
      var s := KeepNumericChars(v);
      LastDot(s) >= 0 && r == s[..LastDot(s)] + s[LastDot(s) + 1..]
  {
    if IsNumericText(v) then v else RemoveLastDot(KeepNumericChars(v))
  }

  lemma {:induction false} KeepNumericOfNumeric(s: string)
    requires NumericChars(s)
    ensures KeepNumericChars(s) == s
    decreases |s|
  {
    if s != [] {
      assert NumericChars(s[1..]) by {
        forall i | 0 <= i < |s| - 1 ensures IsDigit(s[1..][i]) || s[1..][i] == '.' {
          assert s[1..][i] == s[i + 1];
        }
      }
      KeepNumericOfNumeric(s[1..]);
    }
  }

  lemma CountDotsOfExample()
    ensures CountDots("1.2.3.4") == 3
  {
    var v := "1.2.3.4";
    assert v[1..][1..] == "2.3.4";
    assert "2.3.4"[1..][1..] == "3.4";
    assert "3.4"[1..][1..] == "4";
  }

  lemma CountDotsOfResult()
    ensures CountDots("1.2.34") == 2
  {
    var v := "1.2.34";
    assert v[1..][1..] == "2.34";
    assert "2.34"[1..][1..] == "34";
    assert "34"[1..][1..] == "";
  }

  /** On digits and dots with two dots or more, the cleaning takes out the last dot. */
  lemma ValidateRemovesLastDot(s: string)
    requires NumericChars(s) && CountDots(s) >= 2
    ensures LastDot(s) >= 0
    ensures ValidateNumberInput(s) == s[..LastDot(s)] + s[LastDot(s) + 1..]
  {
    KeepNumericOfNumeric(s);
    if LastDot(s) == -1 {
      NoDotsCount(s);
    }
  }

  lemma ExampleInput()
    ensures NumericChars("1.2.3.4") && CountDots("1.2.3.4") == 3 && LastDot("1.2.3.4") == 5
  {
    var v := "1.2.3.4";
    assert v[5] == '.' && v[6] == '4';
    CountDotsOfExample();
  }

  lemma SpliceOfExample()
    ensures "1.2.3.4"[..5] + "1.2.3.4"[6..] == "1.2.34"
  {
    var v := "1.2.3.4";
    var r := v[..5] + v[6..];
    assert |r| == 6;
    assert r[0] == '1' && r[1] == '.' && r[2] == '2' && r[3] == '.' && r[4] == '3' && r[5] == '4';
  }

  /** Three dots leave two: `1.2.3.4` becomes `1.2.34`, which is still not numeric text. */
  lemma ValidateLeavesTwoDots()
    ensures ValidateNumberInput("1.2.3.4") == "1.2.34"
    ensures !IsNumericText(ValidateNumberInput("1.2.3.4"))
  {
    ExampleInput();
    ValidateRemovesLastDot("1.2.3.4");
    SpliceOfExample();
    CountDotsOfResult();
  }

  /** The digits and dots of `s` with every dot after the first (or every dot, once `seen`) removed. */
  function KeepFirstDot(s: string, seen: bool): (r: string)
    ensures DigitsOf(r) == DigitsOf(s)
    ensures CountDots(r) == if seen || CountDots(s) == 0 then 0 else 1
    ensures NumericChars(s) ==> NumericChars(r)
    decreases |s|
  {
    if s == [] then []
    else
      var rest := KeepFirstDot(s[1..], seen || s[0] == '.');
      var head := if s[0] == '.' && seen then [] else [s[0]];
      CountDotsConcat(head, rest);
      DigitsOfConcat(head, rest);
      assert NumericChars(s) ==> NumericChars(s[1..]) by {
        if NumericChars(s) {
          forall i | 0 <= i < |s| - 1 ensures IsDigit(s[1..][i]) || s[1..][i] == '.' {
            assert s[1..][i] == s[i + 1];
          }
        }
      }
      head + rest
  }

  /**
   * The cleaning the source's comment describes ("only one decimal
   * point"): numeric text is kept, anything else keeps its digits and its
   * first dot.
   */
  function ValidateNumberInputFixed(v: string): (r: string)
    ensures IsNumericText(r)
    ensures IsNumericText(v) ==> r == v
    ensures DigitsOf(r) == DigitsOf(v)
    ensures CountDots(r) == if CountDots(v) == 0 then 0 else 1
    ensures !IsNumericText(v) ==>
      var s := KeepNumericChars(v);
      var k := FirstDot(s);
      r == if k == -1 then s else s[..k + 1] + DigitsOf(s[k + 1..])
  {
    if IsNumericText(v) then v
    else
      var s := KeepNumericChars(v);
      KeepFirstDotKeepsFirst(s);
      KeepFirstDot(s, false)
  }

  /** Once a dot has been seen, only the digits of digits-and-dots text are kept. */
  lemma {:induction false} KeepFirstDotSeen(s: string)
    requires NumericChars(s)
    ensures KeepFirstDot(s, true) == DigitsOf(s)
    decreases |s|
  {
    if s != [] {
      assert NumericChars(s[1..]) by {
        forall i | 0 <= i < |s| - 1 ensures IsDigit(s[1..][i]) || s[1..][i] == '.' {
          assert s[1..][i] == s[i + 1];
        }
      }
      KeepFirstDotSeen(s[1..]);
    }
  }

  /** Keeping the first dot keeps everything up to and including it, and only digits after it. */
  lemma KeepFirstDotKeepsFirst(s: string)
    requires NumericChars(s)
    ensures var k := FirstDot(s);
            KeepFirstDot(s, false) == if k == -1 then s else s[..k + 1] + DigitsOf(s[k + 1..])
  {
    var k := FirstDot(s);
    if k == -1 {
      NoDotsCount(s);
      KeepFirstDotOfNoDots(s, false);
    } else {
      var x, y := s[..k + 1], s[k + 1..];
      assert s == x + y;
      assert x == s[..k] + [s[k]];
      NoDotsCount(s[..k]);
      CountDotsConcat(s[..k], [s[k]]);
      assert CountDots([s[k]]) == 1 by {
        assert [s[k]][1..] == [];
      }
      KeepFirstDotOfOneDot(x);
      KeepFirstDotConcat(x, y, false);
      assert NumericChars(y) by {
        forall i | 0 <= i < |y| ensures IsDigit(y[i]) || y[i] == '.' {
          assert y[i] == s[k + 1 + i];
        }
      }
      KeepFirstDotSeen(y);
    }
  }

  lemma {:induction false} KeepFirstDotOfNoDots(s: string, seen: bool)
    requires CountDots(s) == 0
    ensures KeepFirstDot(s, seen) == s
    decreases |s|
  {
    if s != [] {
      assert s[0] != '.';
      KeepFirstDotOfNoDots(s[1..], seen);
    }
  }

  lemma {:induction false} KeepFirstDotOfOneDot(a: string)
    requires CountDots(a) <= 1
    ensures KeepFirstDot(a, false) == a
    decreases |a|
  {
    if a != [] {
      if a[0] == '.' {
        KeepFirstDotOfNoDots(a[1..], true);
      } else {
        KeepFirstDotOfOneDot(a[1..]);
      }
    }
  }

  lemma {:induction false} KeepFirstDotConcat(x: string, y: string, seen: bool)
    ensures KeepFirstDot(x + y, seen) == KeepFirstDot(x, seen) + KeepFirstDot(y, seen || CountDots(x) > 0)
    decreases |x|
  {
    if x == [] {
      assert x + y == y;
    } else {
      var seen' := seen || x[0] == '.';
      var h := if x[0] == '.' && seen then [] else [x[0]];
      assert (x + y)[0] == x[0];
      assert (x + y)[1..] == x[1..] + y;
      KeepFirstDotConcat(x[1..], y, seen');
      assert (seen' || CountDots(x[1..]) > 0) == (seen || CountDots(x) > 0);
      calc {
        KeepFirstDot(x + y, seen);
        h + KeepFirstDot(x[1..] + y, seen');
        h + (KeepFirstDot(x[1..], seen') + KeepFirstDot(y, seen' || CountDots(x[1..]) > 0));
        { ConcatAssociative(h, KeepFirstDot(x[1..], seen'), KeepFirstDot(y, seen' || CountDots(x[1..]) > 0)); }
        h + KeepFirstDot(x[1..], seen') + KeepFirstDot(y, seen || CountDots(x) > 0);
      }
    }
  }

  lemma SplitAtDot(s: string, k: nat)
    requires k < |s| && s[k] == '.'
    ensures s == s[..k] + ("." + s[k + 1..])
  {
    assert s == s[..k] + [s[k]] + s[k + 1..];
  }

  lemma DotThenNoDots(b: string)
    requires forall j :: 0 <= j < |b| ==> b[j] != '.'
    ensures CountDots("." + b) == 1 && KeepFirstDot("." + b, true) == b
  {
    assert ("." + b)[1..] == b;
    NoDotsCount(b);
    KeepFirstDotOfNoDots(b, true);
  }

  /** With exactly two dots, keeping the first is removing the last. */
  lemma KeepFirstOfTwoDots(s: string)
    requires CountDots(s) == 2
    ensures LastDot(s) >= 0 && KeepFirstDot(s, false) == s[..LastDot(s)] + s[LastDot(s) + 1..]
  {
    var k := LastDot(s);
    if k == -1 {
      NoDotsCount(s);
    } else {
      var a, b := s[..k], s[k + 1..];
      SplitAtDot(s, k);
      DotThenNoDots(b);
      CountDotsConcat(a, "." + b);
      KeepFirstDotConcat(a, "." + b, false);
      KeepFirstDotOfOneDot(a);
    }
  }

  /** With at most two dots typed, the source's cleaning and the corrected one agree. */
  lemma FixedAgreesUpToTwoDots(v: string)
    requires CountDots(v) <= 2
    ensures ValidateNumberInputFixed(v) == ValidateNumberInput(v)
  {
    if !IsNumericText(v) {
      var s := KeepNumericChars(v);
      assert ValidateNumberInput(v) == RemoveLastDot(s);
      assert ValidateNumberInputFixed(v) == KeepFirstDot(s, false);
      if CountDots(s) <= 1 {
        KeepFirstDotOfOneDot(s);
      } else {
        KeepFirstOfTwoDots(s);
      }
    }
  }

  // ---------------------------------------------------------------------
  // Searching
  // ---------------------------------------------------------------------

  /** The text of the search form's six inputs. */
  datatype SearchForm = SearchForm(
    searchTerm: string, category: string, status: string, condition: string,
    priceMin: string, priceMax: string)

  /** The form as `handleReset` leaves it. */
  const BlankForm: SearchForm := SearchForm("", "", "", "", "", "")

  /** `text ? parseFloat(text) : null`, the number reading given as `parse`. */
  function PriceBound(text: string, parse: string -> real): (r: Option<real>)
    ensures r.None? <==> text == ""
    ensures r.Some? ==> r.value == parse(text)
  {
    if text == "" then None else Some(parse(text))
  }

  /**
   * The record `handleSearch` hands to `setFilters`: all six keys, the
   * search term trimmed, a blank price field as no bound.
   */
  function SearchUpdate(form: SearchForm, parse: string -> real): (r: CriteriaUpdate)
    ensures r.searchTerm == Some(Trim(form.searchTerm))
    ensures r.category == Some(form.category) && r.status == Some(form.status) && r.condition == Some(form.condition)
    ensures r.priceMin == Some(PriceBound(form.priceMin, parse)) && r.priceMax == Some(PriceBound(form.priceMax, parse))
  {
    CriteriaUpdate(
      Some(Trim(form.searchTerm)), Some(form.category), Some(form.status), Some(form.condition),
      Some(PriceBound(form.priceMin, parse)), Some(PriceBound(form.priceMax, parse)))
  }

  /** A search replaces the whole criteria record: what was set before does not matter. */
  lemma SearchReplacesCriteria(c1: Criteria, c2: Criteria, form: SearchForm, parse: string -> real)
    ensures Merge(c1, SearchUpdate(form, parse)) == Merge(c2, SearchUpdate(form, parse))
  {
  }

  /** Searching with empty inputs (white space in the search box) installs the default criteria. */
  lemma BlankSearchIsReset(c: Criteria, form: SearchForm, parse: string -> real)
    requires AllWhitespace(form.searchTerm)
    requires form.category == "" && form.status == "" && form.condition == ""
    requires form.priceMin == "" && form.priceMax == ""
    ensures Merge(c, SearchUpdate(form, parse)) == DefaultCriteria
  {
    TrimAllWhitespace(form.searchTerm);
  }

  /**
   * `handleSearch`: the form's criteria are installed and the products
   * meeting them are shown.
   */
  method HandleSearch(service: DataService, form: SearchForm, parse: string -> real) returns (shown: seq<Product>)
    modifies service
    ensures service.filters == Merge(old(service.filters), SearchUpdate(form, parse))
    ensures service.products == old(service.products)
    ensures service.currentResourceBase == old(service.currentResourceBase)
    ensures shown == service.FilterProducts()
  {
    service.SetFilters(SearchUpdate(form, parse));
    shown := service.FilterProducts();
  }

  /**
   * `handleReset`: the form is emptied, the default criteria are restored
   * and every product is shown, which is what filtering would show.
   */
  method HandleReset(service: DataService) returns (form: SearchForm, shown: seq<Product>)
    modifies service
    ensures form == BlankForm
    ensures service.filters == DefaultCriteria
    ensures service.products == old(service.products)
    ensures service.currentResourceBase == old(service.currentResourceBase)
    ensures shown == service.products && shown == service.FilterProducts()
  {
    form := BlankForm;
    service.ResetFilters();
    shown := service.products;
    DefaultSelectsAll(service.products);
  }
}
