/**
 * The list logic of the admin editor: the id of a new product, the file
 * name an uploaded image is stored under, and the in-place updates of the
 * product list and of the per-product image and pending-upload lists.
 */
module Admin {
  import opened Wrappers
  import opened Text
  import opened Products

  /** `PATHS.IMAGES_PATH`: where uploaded images are stored, relative to the resource base. */
  const ResourcesDir: string := "resources/"
  const ImagesPath: string := ResourcesDir + "images/"
  const NoMarketplaceLink: string := "no-marketplace-link"
  const ItemPathPattern: string := "marketplace/item/"

  // ---------------------------------------------------------------------
  // The id of a new product
  // ---------------------------------------------------------------------

  predicate IsHexDigit(c: char) {
    IsDigit(c) || 'a' <= c <= 'f' || 'A' <= c <= 'F'
  }

  function HexDigitValue(c: char): nat
    requires IsHexDigit(c)
  {
    if IsDigit(c) then DigitValue(c)
    else if 'a' <= c <= 'f' then c as int - 'a' as int + 10
    else c as int - 'A' as int + 10
  }

  function HexDigitPrefix(s: string): (r: string)
    ensures |r| <= |s| && r == s[..|r|]
    ensures forall i :: 0 <= i < |r| ==> IsHexDigit(r[i])
    ensures |r| == |s| || !IsHexDigit(s[|r|])
    decreases |s|
  {
    if s != [] && IsHexDigit(s[0]) then [s[0]] + HexDigitPrefix(s[1..]) else []
  }

  function HexValue(s: string): nat
    requires forall i :: 0 <= i < |s| ==> IsHexDigit(s[i])
    decreases |s|
  {
    if s == [] then 0 else HexValue(s[..|s| - 1]) * 16 + HexDigitValue(s[|s| - 1])
  }

  /**
   * `parseInt(s)` without a radix, `None` standing for NaN: leading white
   * space, an optional sign, then a `0x` hexadecimal or a decimal digit run,
   * read as far as it goes.
   */
  function ParseInt(s: string): Option<int> {
    var t := TrimStart(s);
    var signed := |t| > 0 && (t[0] == '-' || t[0] == '+');
    var sign := if |t| > 0 && t[0] == '-' then -1 else 1;
    var u := if signed then t[1..] else t;
    if |u| >= 2 && u[0] == '0' && (u[1] == 'x' || u[1] == 'X') then
      var h := HexDigitPrefix(u[2..]);
      if h == [] then None else Some(sign * HexValue(h))
    else
      var d := DigitPrefix(u);
      if d == [] then None else Some(sign * DigitsValue(d))
  }

  /** A non-empty digit string parses to the number it denotes. */
  lemma ParseDigits(s: string)
    requires |s| > 0 && AllDigits(s)
    ensures ParseInt(s) == Some(DigitsValue(s))
  {
    assert IsDigit(s[0]) && !IsWhitespace(s[0]);
    assert TrimStart(s) == s;
    assert !(s[0] == '-' || s[0] == '+');
    assert !(|s| >= 2 && s[0] == '0' && (s[1] == 'x' || s[1] == 'X')) by {
      if |s| >= 2 { assert IsDigit(s[1]); }
    }
    assert DigitPrefix(s) == s;
  }

  /** `parseInt(id.substring(1))`. */
  function IdNumber(id: string): Option<int> {
    ParseInt(if |id| == 0 then "" else id[1..])
  }

  /**
   * `Math.max(...ps.map(p => parseInt(p.id.substring(1))), 0)`: NaN as soon
   * as one id does not parse, otherwise the largest number, and at least 0.
   */
  function MaxIdNumber(ps: seq<Product>): (r: Option<int>)
    ensures r.Some? <==> forall i :: 0 <= i < |ps| ==> IdNumber(ps[i].id).Some?
    ensures r.Some? ==> r.value >= 0 && forall i :: 0 <= i < |ps| ==> IdNumber(ps[i].id).value <= r.value
    ensures r.Some? ==> r.value == 0 || exists i :: 0 <= i < |ps| && IdNumber(ps[i].id).value == r.value
    decreases |ps|
  {
    if ps == [] then Some(0)
    else
      var rest := MaxIdNumber(ps[1..]);
      assert forall i :: 1 <= i < |ps| ==> ps[i] == ps[1..][i - 1];
      match (IdNumber(ps[0].id), rest)
      case (Some(a), Some(m)) => Some(if a > m then a else m)
      case _ => None
  }

  /** `p` followed by the successor of the largest id number, padded to three digits; `pNaN` when that is NaN. */
  function NewId(ps: seq<Product>): (r: string)
    ensures MaxIdNumber(ps).None? <==> r == "pNaN"
    ensures MaxIdNumber(ps).Some? ==>
      && |r| >= 4 && r[0] == 'p' && AllDigits(r[1..])
      && DigitsValue(r[1..]) == MaxIdNumber(ps).value + 1
    ensures MaxIdNumber(ps).Some? ==> |r| == 4 || r[1] != '0'
  {
    match MaxIdNumber(ps)
    case None => "pNaN"
    case Some(m) =>
      var d := PadStart(DecimalString(m + 1), 3, '0');
      NewIdDigits(m);
      DecimalStringValue(m + 1);
      assert ("p" + d)[1..] == d;
      "p" + d
  }

  /** Every id is `p` followed by one or more decimal digits. */
  predicate WellNumbered(ps: seq<Product>) {
    forall i :: 0 <= i < |ps| ==> |ps[i].id| >= 2 && ps[i].id[0] == 'p' && AllDigits(ps[i].id[1..])
  }

  /** The number of a new id exceeds the number of every existing `p`-and-digits id. */
  lemma NewIdExceeds(ps: seq<Product>)
    requires WellNumbered(ps)
    ensures MaxIdNumber(ps).Some?
    ensures forall i :: 0 <= i < |ps| ==> DigitsValue(ps[i].id[1..]) < MaxIdNumber(ps).value + 1
  {
    forall i | 0 <= i < |ps| ensures IdNumber(ps[i].id) == Some(DigitsValue(ps[i].id[1..])) {
      ParseDigits(ps[i].id[1..]);
    }
  }

  /** The digits of a new id: the successor of the maximum, left-padded with zeros. */
  lemma NewIdDigits(m: nat)
    ensures var d := PadStart(DecimalString(m + 1), 3, '0');
            |d| >= 3 && AllDigits(d) && DigitsValue(d) == m + 1
  {
    var s := DecimalString(m + 1);
    DecimalStringValue(m + 1);
    if |s| < 3 {
      LeadingZerosValue(3 - |s|, s);
    }
  }

  /** When every id is `p` and digits, the new id is different from all of them. */
  lemma NewIdFresh(ps: seq<Product>)
    requires WellNumbered(ps)
    ensures forall i :: 0 <= i < |ps| ==> ps[i].id != NewId(ps)
  {
    NewIdExceeds(ps);
    var m := MaxIdNumber(ps).value;
    var d := PadStart(DecimalString(m + 1), 3, '0');
    NewIdDigits(m);
    assert NewId(ps) == "p" + d && ("p" + d)[1..] == d;
    forall i | 0 <= i < |ps| ensures ps[i].id != NewId(ps) {
      assert DigitsValue(ps[i].id[1..]) != DigitsValue(d);
    }
  }

  /** Adding the new product keeps every id of the form `p` and digits. */
  lemma NewIdKeepsNumbering(ps: seq<Product>)
    requires WellNumbered(ps)
    ensures WellNumbered(ps + [CreateNewProduct(ps)])
  {
    NewIdWellFormed(ps);
    var q := ps + [CreateNewProduct(ps)];
    forall i | 0 <= i < |q| ensures |q[i].id| >= 2 && q[i].id[0] == 'p' && AllDigits(q[i].id[1..]) {
      if i < |ps| {
        assert q[i] == ps[i];
      }
    }
  }

  /** A new id for `p`-and-digits ids is itself `p` and digits. */
  lemma NewIdWellFormed(ps: seq<Product>)
    requires WellNumbered(ps)
    ensures var id := NewId(ps); |id| >= 2 && id[0] == 'p' && AllDigits(id[1..])
  {
    NewIdExceeds(ps);
    var m := MaxIdNumber(ps).value;
    var d := PadStart(DecimalString(m + 1), 3, '0');
    NewIdDigits(m);
    assert NewId(ps) == "p" + d;
    assert ("p" + d)[1..] == d;
  }

  /** One id that does not parse makes every new id `pNaN`. */
  lemma NewIdNaN(ps: seq<Product>, k: nat)
    requires k < |ps| && IdNumber(ps[k].id).None?
    ensures NewId(ps) == "pNaN"
  {
  }

  /** The first product gets `p001`. */
  lemma NewIdOfEmptyList()
    ensures NewId([]) == "p001"
  {
    assert DecimalString(1) == "1";
    assert PadStart("1", 3, '0') == "001";
  }

  /**
   * The product `createNewProduct` opens the editor with: a fresh id when
   * the ids are `p` and digits, empty text fields, `Available`, `New`, price
   * zero, no images or tags, and an empty link.
   */
  function CreateNewProduct(ps: seq<Product>): (r: Product)
    ensures r.id == NewId(ps)
    ensures WellNumbered(ps) ==> forall i :: 0 <= i < |ps| ==> ps[i].id != r.id
    ensures r.title == "" && r.category == "" && r.description == ""
    ensures r.status == "Available" && r.condition == "New" && r.price == 0.0
    ensures r.images == [] && r.tags == [] && r.marketplaceLink == Some("")
  {
    var p := Product(NewId(ps), "", "", "", "Available", "New", 0.0, [], [], Some(""));
    if WellNumbered(ps) then NewIdFresh(ps); p else p
  }

  // ---------------------------------------------------------------------
  // File names of uploaded images
  // ---------------------------------------------------------------------

  /** A character `sanitizeFilename` may emit. */
  predicate IsFilenameChar(c: char) {
    IsAsciiLower(c) || IsDigit(c) || c == '-'
  }

  /** A character `[a-z0-9\s-]` matches. */
  predicate IsKeptChar(c: char) {
    IsFilenameChar(c) || IsWhitespace(c)
  }

  /** `.replace(/[^a-z0-9\s-]/g, '')`. */
  function RemoveDisallowed(s: string): (r: string)
    ensures forall i :: 0 <= i < |r| ==> IsKeptChar(r[i])
    decreases |s|
  {
    if s == [] then [] else (if IsKeptChar(s[0]) then [s[0]] else []) + RemoveDisallowed(s[1..])
  }

  /** Removing the disallowed characters works character by character: it distributes over concatenation. */
  lemma {:induction false} RemoveDisallowedConcat(x: string, y: string)
    ensures RemoveDisallowed(x + y) == RemoveDisallowed(x) + RemoveDisallowed(y)
    decreases |x|
  {
    if x == [] {
      assert x + y == y;
    } else {
      var h := if IsKeptChar(x[0]) then [x[0]] else [];
      assert (x + y)[0] == x[0];
      assert (x + y)[1..] == x[1..] + y;
      RemoveDisallowedConcat(x[1..], y);
      ConcatAssociative(h, RemoveDisallowed(x[1..]), RemoveDisallowed(y));
    }
  }

  /** A single character is kept exactly when the character class matches it. */
  lemma RemoveDisallowedChar(c: char)
    ensures RemoveDisallowed([c]) == if IsKeptChar(c) then [c] else []
  {
    assert [c][1..] == [];
  }

  /** `.replace(/\s+/g, '-')`. */
  function HyphenateWhitespace(s: string): string
    decreases |s|
  {
    if s == [] then []
    else if IsWhitespace(s[0]) then
      TrimStartShape(s[1..]);
      "-" + HyphenateWhitespace(TrimStart(s[1..]))
    else [s[0]] + HyphenateWhitespace(s[1..])
  }

  /** `title.trim().toLowerCase().replace(/[^a-z0-9\s-]/g, '').replace(/\s+/g, '-')`. */
  function SanitizeFilename(title: string): (r: string)
    ensures forall i :: 0 <= i < |r| ==> IsFilenameChar(r[i])
  {
    var kept := RemoveDisallowed(ToLower(Trim(title)));
    HyphenateKeptChars(kept);
    HyphenateWhitespace(kept)
  }

  /** Hyphenating a string of kept characters leaves only file-name characters. */
  lemma {:induction false} HyphenateKeptChars(s: string)
    requires forall i :: 0 <= i < |s| ==> IsKeptChar(s[i])
    ensures forall i :: 0 <= i < |HyphenateWhitespace(s)| ==> IsFilenameChar(HyphenateWhitespace(s)[i])
    decreases |s|
  {
    if s != [] {
      if IsWhitespace(s[0]) {
        TrimStartShape(s[1..]);
        var t := TrimStart(s[1..]);
        assert forall i :: 0 <= i < |t| ==> t[i] == s[1..][|s| - 1 - |t| + i];
        HyphenateKeptChars(t);
      } else {
        HyphenateKeptChars(s[1..]);
      }
    }
  }

  /**
   * Hyphenation distributes over a concatenation whose seam does not fall
   * inside a run of white space.
   */
  lemma {:induction false} HyphenateConcat(x: string, y: string)
    requires x == [] || y == [] || !IsWhitespace(x[|x| - 1]) || !IsWhitespace(y[0])
    ensures HyphenateWhitespace(x + y) == HyphenateWhitespace(x) + HyphenateWhitespace(y)
    decreases |x|
  {
    if x == [] {
      assert x + y == y;
    } else if !IsWhitespace(x[0]) {
      assert (x + y)[1..] == x[1..] + y;
      HyphenateConcat(x[1..], y);
    } else if AllWhitespace(x) {
      HyphenateWhitespaceOnlyHead(x, y);
    } else {
      HyphenateWhitespaceHead(x, y);
      var t := TrimStart(x[1..]);
      HyphenateConcat(t, y);
      ConcatAssociative("-", HyphenateWhitespace(t), HyphenateWhitespace(y));
    }
  }

  /** Unfolding a white-space-only `x` followed by text that does not start with white space. */
  lemma HyphenateWhitespaceOnlyHead(x: string, y: string)
    requires x != [] && AllWhitespace(x)
    requires y == [] || !IsWhitespace(y[0])
    ensures HyphenateWhitespace(x + y) == HyphenateWhitespace(x) + HyphenateWhitespace(y)
  {
    assert (x + y)[0] == x[0];
    assert (x + y)[1..] == x[1..] + y;
    assert AllWhitespace(x[1..]) by {
      forall i | 0 <= i < |x| - 1 ensures IsWhitespace(x[1..][i]) { assert x[1..][i] == x[i + 1]; }
    }
    TrimStartAfterWhitespace(x[1..], y);
    TrimAllWhitespace(x[1..]);
    assert TrimStart(y) == y;
  }

  /** Unfolding a leading white-space run that ends inside `x`. */
  lemma HyphenateWhitespaceHead(x: string, y: string)
    requires x != [] && IsWhitespace(x[0]) && !AllWhitespace(x)
    ensures var t := TrimStart(x[1..]);
            && 0 < |t| < |x| && t[|t| - 1] == x[|x| - 1]
            && HyphenateWhitespace(x) == "-" + HyphenateWhitespace(t)
            && HyphenateWhitespace(x + y) == "-" + HyphenateWhitespace(t + y)
  {
    assert (x + y)[0] == x[0];
    assert (x + y)[1..] == x[1..] + y;
    assert !AllWhitespace(x[1..]) by {
      var i :| 0 <= i < |x| && !IsWhitespace(x[i]);
      assert x[1..][i - 1] == x[i];
    }
    TrimStartConcat(x[1..], y);
    TrimStartShape(x[1..]);
  }

  lemma HyphenateRunOnly(w: string)
    requires |w| > 0 && AllWhitespace(w)
    ensures HyphenateWhitespace(w) == "-"
  {
    TrimAllWhitespace(w[1..]);
  }

  lemma HyphenateRunThen(w: string, b: string)
    requires |w| > 0 && AllWhitespace(w)
    requires b == [] || !IsWhitespace(b[0])
    ensures HyphenateWhitespace(w + b) == "-" + HyphenateWhitespace(b)
  {
    HyphenateConcat(w, b);
    HyphenateRunOnly(w);
  }

  /** Each maximal run of white space becomes exactly one hyphen. */
  lemma HyphenateRun(a: string, w: string, b: string)
    requires a == [] || !IsWhitespace(a[|a| - 1])
    requires |w| > 0 && AllWhitespace(w)
    requires b == [] || !IsWhitespace(b[0])
    ensures HyphenateWhitespace(a + w + b) == HyphenateWhitespace(a) + "-" + HyphenateWhitespace(b)
  {
    var wb := w + b;
    HyphenateRunThen(w, b);
    assert wb[0] == w[0];
    HyphenateConcat(a, wb);
    ConcatAssociative(a, w, b);
    ConcatAssociative(HyphenateWhitespace(a), "-", HyphenateWhitespace(b));
  }

  lemma {:induction false} HyphenateNoWhitespace(s: string)
    requires NoWhitespace(s)
    ensures HyphenateWhitespace(s) == s
    decreases |s|
  {
    if s != [] {
      HyphenateNoWhitespace(s[1..]);
    }
  }

  lemma {:induction false} RemoveDisallowedKept(s: string)
    requires forall i :: 0 <= i < |s| ==> IsKeptChar(s[i])
    ensures RemoveDisallowed(s) == s
    decreases |s|
  {
    if s != [] {
      RemoveDisallowedKept(s[1..]);
    }
  }

  /**
   * Two words of file-name characters separated by white space are joined
   * by one hyphen: `lamp  2` becomes `lamp-2`.
   */
  lemma SanitizeWords(a: string, w: string, b: string)
    requires |a| > 0 && forall i :: 0 <= i < |a| ==> IsFilenameChar(a[i])
    requires |b| > 0 && forall i :: 0 <= i < |b| ==> IsFilenameChar(b[i])
    requires |w| > 0 && AllWhitespace(w)
    ensures SanitizeFilename(a + w + b) == a + "-" + b
  {
    var t := a + w + b;
    KeptWords(a, w, b);
    assert t[0] == a[0] && t[|t| - 1] == b[|b| - 1];
    SanitizeKept(t);
    HyphenateRun(a, w, b);
    HyphenateNoWhitespace(a);
    HyphenateNoWhitespace(b);
  }

  lemma KeptWords(a: string, w: string, b: string)
    requires forall i :: 0 <= i < |a| ==> IsFilenameChar(a[i])
    requires forall i :: 0 <= i < |b| ==> IsFilenameChar(b[i])
    requires AllWhitespace(w)
    ensures forall i :: 0 <= i < |a + w + b| ==> IsKeptChar((a + w + b)[i])
  {
    var t := a + w + b;
    forall i | 0 <= i < |t| ensures IsKeptChar(t[i]) {
      if i < |a| { assert t[i] == a[i]; }
      else if i < |a| + |w| { assert t[i] == w[i - |a|]; }
      else { assert t[i] == b[i - |a| - |w|]; }
    }
  }

  /** Kept characters with no white space at either end only have their white space runs hyphenated. */
  lemma SanitizeKept(t: string)
    requires |t| > 0 && !IsWhitespace(t[0]) && !IsWhitespace(t[|t| - 1])
    requires forall i :: 0 <= i < |t| ==> IsKeptChar(t[i])
    ensures SanitizeFilename(t) == HyphenateWhitespace(t)
  {
    TrimEdges(t);
    ToLowerKept(t);
    RemoveDisallowedKept(t);
  }

  lemma ToLowerKept(t: string)
    requires forall i :: 0 <= i < |t| ==> IsKeptChar(t[i])
    ensures ToLower(t) == t
  {
    assert forall i :: 0 <= i < |t| ==> ToLower(t)[i] == t[i];
  }

  /** A sanitized name is its own sanitized name. */
  lemma SanitizeIdempotent(title: string)
    ensures SanitizeFilename(SanitizeFilename(title)) == SanitizeFilename(title)
  {
    var r := SanitizeFilename(title);
    assert NoWhitespace(r);
    TrimNoWhitespace(r);
    assert ToLower(r) == r;
    RemoveDisallowedKept(r);
    HyphenateNoWhitespace(r);
  }

  /** The case-insensitive `marketplace/item/` occurs at `i` and a digit follows it. */
  predicate ItemLinkAt(url: string, i: int) {
    && 0 <= i
    && i + |ItemPathPattern| < |url|
    && ToLower(url[i..i + |ItemPathPattern|]) == ItemPathPattern
    && IsDigit(url[i + |ItemPathPattern|])
  }

  /** The leftmost position at or after `from` where the item-link pattern matches. */
  function FirstItemLink(url: string, from: nat): (r: Option<nat>)
    ensures r.Some? ==> from <= r.value && ItemLinkAt(url, r.value) &&
                        forall j :: from <= j < r.value ==> !ItemLinkAt(url, j)
    ensures r.None? ==> forall j :: from <= j ==> !ItemLinkAt(url, j)
    decreases |url| - from
  {
    if from >= |url| then None
    else if ItemLinkAt(url, from) then Some(from)
    else FirstItemLink(url, from + 1)
  }

  /**
   * `url.match(/marketplace\/item\/(\d+)/i)[1]`, or `no-marketplace-link`
   * for an absent or empty url or when nothing matches: hence either that
   * sentinel or a non-empty run of digits.
   */
  function ExtractMarketplaceItemId(url: Option<string>): (r: string)
    ensures url == None || url == Some("") ==> r == NoMarketplaceLink
    ensures r == NoMarketplaceLink || (|r| > 0 && AllDigits(r))
  {
    if url == None || url == Some("") then NoMarketplaceLink
    else match FirstItemLink(url.value, 0)
      case None => NoMarketplaceLink
      case Some(i) => DigitPrefix(url.value[i + |ItemPathPattern|..])
  }

  /**
   * A url yields the sentinel exactly when the pattern matches nowhere
   * (the empty url included); otherwise the longest digit run after its
   * leftmost match.
   */
  lemma ItemIdIsLeftmostMatch(url: string)
    ensures ExtractMarketplaceItemId(Some(url)) == NoMarketplaceLink <==>
            forall i :: 0 <= i < |url| ==> !ItemLinkAt(url, i)
    ensures ExtractMarketplaceItemId(Some(url)) != NoMarketplaceLink ==>
            exists i :: && ItemLinkAt(url, i)
                        && (forall j :: 0 <= j < i ==> !ItemLinkAt(url, j))
                        && ExtractMarketplaceItemId(Some(url)) == DigitPrefix(url[i + |ItemPathPattern|..])
  {
    match FirstItemLink(url, 0)
    case None =>
      assert ExtractMarketplaceItemId(Some(url)) == NoMarketplaceLink;
    case Some(i) =>
      var d := DigitPrefix(url[i + |ItemPathPattern|..]);
      assert ExtractMarketplaceItemId(Some(url)) == d;
      assert IsDigit(d[0]) && !IsDigit(NoMarketplaceLink[0]);
      assert d != NoMarketplaceLink;
  }

  /** `name.split('.').pop()`: the text after the last dot, or the whole name when it has none. */
  function LastSegment(name: string): (r: string)
    ensures |r| <= |name| && r == name[|name| - |r|..]
    ensures forall j :: 0 <= j < |r| ==> r[j] != '.'
    ensures |r| < |name| ==> name[|name| - |r| - 1] == '.'
  {
    name[LastDot(name) + 1..]
  }

  /** `name.split('.').pop().toLowerCase()`. */
  function FileExtension(name: string): string {
    ToLower(LastSegment(name))
  }

  /**
   * The stored file name of an upload:
   * `<sanitized title>-<item id>-<image index>-<timestamp>.<extension>`.
   */
  function UploadFilename(title: string, itemId: string, imageIndex: nat, timestamp: nat, name: string): string {
    SanitizeFilename(title) + "-" + itemId + "-" + DecimalString(imageIndex) + "-" +
    DecimalString(timestamp) + "." + FileExtension(name)
  }

  /** Where an upload named `fileName` is stored. */
  function UploadPath(fileName: string): string {
    ImagesPath + fileName
  }

  lemma LastSegmentAfterDot(p: string, e: string)
    requires forall j :: 0 <= j < |e| ==> e[j] != '.'
    ensures LastSegment(p + "." + e) == e
  {
    var n := p + "." + e;
    assert n[|p|] == '.';
    assert forall j :: |p| < j < |n| ==> n[j] == e[j - |p| - 1];
    assert LastDot(n) == |p|;
    assert n[|p| + 1..] == e;
  }

  /** The stored file keeps the extension of the original file, lower-cased. */
  lemma UploadKeepsExtension(title: string, itemId: string, imageIndex: nat, timestamp: nat, name: string)
    ensures FileExtension(UploadFilename(title, itemId, imageIndex, timestamp, name)) == FileExtension(name)
  {
    var e := FileExtension(name);
    var p := SanitizeFilename(title) + "-" + itemId + "-" + DecimalString(imageIndex) + "-" + DecimalString(timestamp);
    assert UploadFilename(title, itemId, imageIndex, timestamp, name) == p + "." + e;
    LastSegmentAfterDot(p, e);
    ToLowerIdempotent(LastSegment(name));
  }

  lemma PrefixStartsWith(a: string, b: string, p: string)
    requires StartsWith(a, p)
    ensures StartsWith(a + b, p)
  {
    assert (a + b)[..|p|] == a[..|p|];
  }

  /** An upload is stored under `resources/`, the prefix the browse page rewrites to the resource base. */
  lemma UploadPathIsResource(fileName: string)
    ensures StartsWith(UploadPath(fileName), ResourcesDir)
  {
    PrefixStartsWith(ResourcesDir, "images/" + fileName, ResourcesDir);
    assert UploadPath(fileName) == ResourcesDir + ("images/" + fileName);
  }

  // ---------------------------------------------------------------------
  // Saving and deleting products
  // ---------------------------------------------------------------------

  /** The values the edit form holds when it is saved, the price already read as a number. */
  datatype EditForm = EditForm(
    id: string, title: string, category: string, status: string, condition: string,
    price: real, tags: seq<string>, marketplaceLink: string, description: string)

  /** A file waiting to be sent to the server, with the path it is to be stored under. */
  datatype PendingUpload = PendingUpload(fileName: string, path: string)

  /**
   * The images a saved product gets: the edited list when it is non-empty,
   * otherwise the existing product's images when those are non-empty,
   * otherwise none.
   */
  function ChooseImages(edited: Option<seq<string>>, existing: Option<Product>): (r: seq<string>)
    ensures edited.Some? && edited.value != [] ==> r == edited.value
    ensures (edited.None? || edited.value == []) && existing.Some? ==> r == existing.value.images
    ensures (edited.None? || edited.value == []) && existing.None? ==> r == []
  {
    if edited.Some? && |edited.value| > 0 then edited.value
    else if existing.Some? && |existing.value.images| > 0 then existing.value.images
    else []
  }

  /** An edited list emptied by removing every image does not clear the product's images. */
  lemma EmptiedEditKeepsImages(p: Product)
    ensures ChooseImages(Some([]), Some(p)) == p.images
  {
  }

  /** The product the form saves; a blank link becomes no link, any other is trimmed. */
  function UpdatedProduct(form: EditForm, images: seq<string>): (r: Product)
    ensures r.id == form.id && r.images == images
    ensures r.title == form.title && r.description == form.description && r.tags == form.tags
    ensures r.category == form.category && r.status == form.status && r.condition == form.condition
    ensures r.price == form.price
    ensures r.marketplaceLink == None <==> Trim(form.marketplaceLink) == ""
    ensures r.marketplaceLink.Some? ==> r.marketplaceLink.value == Trim(form.marketplaceLink)
  {
    var link := Trim(form.marketplaceLink);
    Product(form.id, form.title, form.description, form.category, form.status, form.condition,
            form.price, form.tags, images, if link == "" then None else Some(link))
  }

  /**
   * The product list after saving `p`: appended when its id is new,
   * otherwise put in place of the first product with that id; every other
   * entry stays where it was.
   */
  function Upsert(ps: seq<Product>, p: Product): (r: seq<Product>)
    ensures FindIndex(ps, p.id) == -1 ==> |r| == |ps| + 1 && r[|ps|] == p
    ensures FindIndex(ps, p.id) != -1 ==> |r| == |ps| && r[FindIndex(ps, p.id)] == p
    ensures forall i :: 0 <= i < |ps| && i != FindIndex(ps, p.id) ==> r[i] == ps[i]
  {
    var k := FindIndex(ps, p.id);
    if k == -1 then ps + [p] else ps[k := p]
  }

  /** After saving, looking the id up finds the saved product. */
  lemma UpsertThenFind(ps: seq<Product>, p: Product)
    ensures FindById(Upsert(ps, p), p.id) == Some(p)
  {
    var r := Upsert(ps, p);
    var k := FindIndex(ps, p.id);
    var j := if k == -1 then |ps| else k;
    forall i | 0 <= i < j ensures r[i].id != p.id {
      assert r[i] == ps[i];
    }
    assert r[j] == p;
    assert FindIndex(r, p.id) == j;
  }

  /** Saving keeps the ids distinct. */
  lemma UpsertKeepsUniqueIds(ps: seq<Product>, p: Product)
    requires UniqueIds(ps)
    ensures UniqueIds(Upsert(ps, p))
  {
    var r := Upsert(ps, p);
    var k := FindIndex(ps, p.id);
    forall i, j | 0 <= i < j < |r| ensures r[i].id != r[j].id {
      if i == k || (k == -1 && i == |ps|) {
        assert r[j] == ps[j];
      } else if j == k || (k == -1 && j == |ps|) {
        assert r[i] == ps[i];
      } else {
        assert r[i] == ps[i] && r[j] == ps[j];
      }
    }
  }

  /** Saving the same product twice leaves the list as saving it once. */
  lemma UpsertIdempotent(ps: seq<Product>, p: Product)
    ensures Upsert(Upsert(ps, p), p) == Upsert(ps, p)
  {
    var r := Upsert(ps, p);
    UpsertThenFind(ps, p);
    var k := FindIndex(r, p.id);
    assert r[k] == p;
    assert r[k := p] == r;
  }

  /** `product ? [...product.images] : []`. */
  function ImagesOf(product: Option<Product>): seq<string> {
    match product
    case Some(p) => p.images
    case None => []
  }

  /** `s.splice(i, 1)`: the element at `i` taken out, or nothing when `i` is past the end. */
  function SpliceOne<T>(s: seq<T>, i: nat): (r: seq<T>)
    ensures i < |s| ==> |r| == |s| - 1 && multiset(r) + multiset{s[i]} == multiset(s)
    ensures i < |s| ==> (forall j :: 0 <= j < i ==> r[j] == s[j]) && (forall j :: i <= j < |r| ==> r[j] == s[j + 1])
    ensures i >= |s| ==> r == s
  {
    if i < |s| then
      assert s == s[..i] + [s[i]] + s[i + 1..];
      s[..i] + s[i + 1..]
    else s
  }

  /**
   * The product list after deleting `id`: without the first product that
   * has it, the others in their order; unchanged when no product has it.
   */
  function RemoveProduct(ps: seq<Product>, id: string): (r: seq<Product>)
    ensures FindIndex(ps, id) == -1 <==> r == ps
    ensures FindIndex(ps, id) != -1 ==> r == SpliceOne(ps, FindIndex(ps, id))
  {
    var k := FindIndex(ps, id);
    if k == -1 then ps else
      assert |SpliceOne(ps, k)| < |ps|;
      SpliceOne(ps, k)
  }

  /** With distinct ids, a deleted id can no longer be found. */
  lemma RemoveThenFindNone(ps: seq<Product>, id: string)
    requires UniqueIds(ps)
    ensures FindById(RemoveProduct(ps, id), id) == None
  {
    var k := FindIndex(ps, id);
    var r := RemoveProduct(ps, id);
    if k != -1 {
      forall i | 0 <= i < |r| ensures r[i].id != id {
        if i < k { assert r[i] == ps[i]; } else { assert r[i] == ps[i + 1]; }
      }
    }
  }

  /** Deleting keeps the ids distinct. */
  lemma RemoveKeepsUniqueIds(ps: seq<Product>, id: string)
    requires UniqueIds(ps)
    ensures UniqueIds(RemoveProduct(ps, id))
  {
    var k := FindIndex(ps, id);
    var r := RemoveProduct(ps, id);
    if k != -1 {
      forall i, j | 0 <= i < j < |r| ensures r[i].id != r[j].id {
        var i' := if i < k then i else i + 1;
        var j' := if j < k then j else j + 1;
        assert r[i] == ps[i'] && r[j] == ps[j'];
      }
    }
  }

  /** Deleting a product that was just added under a new id restores the list. */
  lemma AddThenRemove(ps: seq<Product>, p: Product)
    requires FindIndex(ps, p.id) == -1
    ensures RemoveProduct(Upsert(ps, p), p.id) == ps
  {
    UpsertThenFind(ps, p);
    var r := Upsert(ps, p);
    assert FindIndex(r, p.id) == |ps|;
    assert r[..|ps|] == ps;
  }

  // ---------------------------------------------------------------------
  // The editor's state
  // ---------------------------------------------------------------------

  /**
   * The admin page: the product list, the image list being edited for each
   * product id, and the files waiting to be uploaded for each product id.
   */
  class Editor {
    var products: seq<Product>
    var editedImages: map<string, seq<string>>
    var uploadedFiles: map<string, seq<PendingUpload>>

    /** The page once `loadProducts` has read the list. */
    constructor (loaded: seq<Product>)
      ensures products == loaded && editedImages == map[] && uploadedFiles == map[]
    {
      products := loaded;
      editedImages := map[];
      uploadedFiles := map[];
    }

    /**
     * Opens the form on a new product (no id given) or on the first product
     * with the id: the shown product's pending uploads are reset, its edited
     * images are kept. An id no product has stops before any change.
     */
    method OpenEditModal(productId: Option<string>) returns (shown: Option<Product>)
      modifies this
      ensures products == old(products) && editedImages == old(editedImages)
      ensures productId == None || productId == Some("") ==> shown == Some(CreateNewProduct(products))
      ensures productId.Some? && productId.value != "" ==> shown == FindById(products, productId.value)
      ensures shown.Some? ==> uploadedFiles == old(uploadedFiles)[shown.value.id := []]
      ensures shown.None? ==> uploadedFiles == old(uploadedFiles)
    {
      if productId == None || productId == Some("") {
        shown := Some(CreateNewProduct(products));
      } else {
        shown := FindById(products, productId.value);
      }
      if shown.Some? {
        uploadedFiles := uploadedFiles[shown.value.id := []];
      }
    }

    /**
     * The remove button of a shown image: the product's edited list starts
     * as a copy of its images, then loses the entry at `index`.
     */
    method RemoveShownImage(product: Product, index: nat)
      modifies this
      ensures products == old(products) && uploadedFiles == old(uploadedFiles)
      ensures editedImages ==
        old(editedImages)[product.id := SpliceOne(
          if product.id in old(editedImages) then old(editedImages)[product.id] else product.images, index)]
    {
      if product.id !in editedImages {
        editedImages := editedImages[product.id := product.images];
      }
      editedImages := editedImages[product.id := SpliceOne(editedImages[product.id], index)];
    }

    /**
     * The part of `handleImageUpload` that runs before any file is read:
     * nothing happens without files; otherwise the pending list and the
     * edited list of the product are created when absent (the latter as a
     * copy of the product's images), and the current image count and the
     * marketplace item id the file names use are returned.
     */
    method BeginImageUpload(productId: string, fileCount: nat, marketplaceLink: string)
      returns (started: bool, currentImageCount: nat, itemId: string)
      modifies this
      ensures products == old(products)
      ensures started <==> fileCount > 0
      ensures !started ==> editedImages == old(editedImages) && uploadedFiles == old(uploadedFiles)
      ensures started ==> uploadedFiles ==
                          if productId in old(uploadedFiles) then old(uploadedFiles)
                          else old(uploadedFiles)[productId := []]
      ensures started ==> editedImages ==
                          if productId in old(editedImages) then old(editedImages)
                          else old(editedImages)[productId := ImagesOf(FindById(products, productId))]
      ensures started ==> productId in editedImages && currentImageCount == |editedImages[productId]|
      ensures started ==> itemId == ExtractMarketplaceItemId(Some(marketplaceLink))
    {
      if fileCount == 0 {
        return false, 0, "";
      }
      if productId !in uploadedFiles {
        uploadedFiles := uploadedFiles[productId := []];
      }
      if productId !in editedImages {
        var product := FindById(products, productId);
        editedImages := editedImages[productId := ImagesOf(product)];
      }
      started := true;
      currentImageCount := |editedImages[productId]|;
      itemId := ExtractMarketplaceItemId(Some(marketplaceLink));
    }

    /**
     * The file at position `index` of an upload has been read: it joins the
     * pending uploads under its generated path, and the path joins the
     * edited images. Its image index is `currentImageCount + index`, the
     * count being the one `BeginImageUpload` returned for the upload.
     */
    method ImageLoaded(productId: string, title: string, itemId: string, currentImageCount: nat, index: nat,
                       timestamp: nat, fileName: string)
      returns (path: string)
      requires productId in editedImages && productId in uploadedFiles
      modifies this
      ensures path == UploadPath(UploadFilename(title, itemId, currentImageCount + index, timestamp, fileName))
      ensures products == old(products)
      ensures editedImages == old(editedImages)[productId := old(editedImages)[productId] + [path]]
      ensures uploadedFiles == old(uploadedFiles)[productId := old(uploadedFiles)[productId] + [PendingUpload(fileName, path)]]
    {
      var imageIndex := currentImageCount + index;
      var files, images := uploadedFiles[productId], editedImages[productId];
      path := UploadPath(UploadFilename(title, itemId, imageIndex, timestamp, fileName));
      uploadedFiles := uploadedFiles[productId := files + [PendingUpload(fileName, path)]];
      editedImages := editedImages[productId := images + [path]];
    }

    /**
     * The remove button of an uploaded image: the edited list loses the
     * entry at `index`, and the first pending upload with the image's path
     * is dropped.
     */
    method RemoveUploadedImage(productId: string, index: nat, path: string)
      requires productId in editedImages && productId in uploadedFiles
      modifies this
      ensures products == old(products)
      ensures editedImages == old(editedImages)[productId := SpliceOne(old(editedImages)[productId], index)]
      ensures uploadedFiles == old(uploadedFiles)[productId := RemoveUpload(old(uploadedFiles)[productId], path)]
    {
      editedImages := editedImages[productId := SpliceOne(editedImages[productId], index)];
      var fileIndex := FindUpload(uploadedFiles[productId], path);
      if fileIndex != -1 {
        uploadedFiles := uploadedFiles[productId := SpliceOne(uploadedFiles[productId], fileIndex)];
      }
    }

    /**
     * Hands the product's pending uploads over for sending and empties its
     * list; a product with none is left as it is.
     */
    method UploadProductImages(productId: string) returns (sent: seq<PendingUpload>)
      modifies this
      ensures products == old(products) && editedImages == old(editedImages)
      ensures productId in old(uploadedFiles) ==> sent == old(uploadedFiles)[productId]
      ensures productId !in old(uploadedFiles) ==> sent == []
      ensures sent == [] ==> uploadedFiles == old(uploadedFiles)
      ensures sent != [] ==> uploadedFiles == old(uploadedFiles)[productId := []]
      ensures productId !in uploadedFiles || uploadedFiles[productId] == []
    {
      if productId !in uploadedFiles || uploadedFiles[productId] == [] {
        return [];
      }
      sent := uploadedFiles[productId];
      uploadedFiles := uploadedFiles[productId := []];
    }

    /**
     * Saves the form: the product it describes, with the images chosen from
     * the edited list and the existing product, is put into the list, and
     * the product's pending uploads are sent.
     */
    method SaveProductChanges(form: EditForm) returns (saved: Product, sent: seq<PendingUpload>)
      modifies this
      ensures saved == UpdatedProduct(form, ChooseImages(
        if form.id in old(editedImages) then Some(old(editedImages)[form.id]) else None,
        FindById(old(products), form.id)))
      ensures products == Upsert(old(products), saved)
      ensures FindById(products, form.id) == Some(saved)
      ensures editedImages == old(editedImages)
      ensures form.id in old(uploadedFiles) ==> sent == old(uploadedFiles)[form.id]
      ensures form.id !in old(uploadedFiles) ==> sent == []
      ensures sent == [] ==> uploadedFiles == old(uploadedFiles)
      ensures sent != [] ==> uploadedFiles == old(uploadedFiles)[form.id := []]
      ensures form.id !in uploadedFiles || uploadedFiles[form.id] == []
    {
      var existing := FindById(products, form.id);
      var edited := if form.id in editedImages then Some(editedImages[form.id]) else None;
      saved := UpdatedProduct(form, ChooseImages(edited, existing));
      var k := FindIndex(products, form.id);
      if k == -1 {
        products := products + [saved];
      } else {
        products := products[k := saved];
      }
      UpsertThenFind(old(products), saved);
      sent := UploadProductImages(form.id);
    }

    /**
     * Deletes the first product with the id once the user has confirmed,
     * returning it (its images are the ones sent to the archive); a
     * declined confirmation or an unknown id changes nothing.
     */
    method DeleteProduct(productId: string, confirmed: bool) returns (deleted: Option<Product>)
      modifies this
      ensures editedImages == old(editedImages) && uploadedFiles == old(uploadedFiles)
      ensures !confirmed ==> products == old(products) && deleted == None
      ensures confirmed ==> products == RemoveProduct(old(products), productId)
      ensures confirmed ==> deleted == FindById(old(products), productId)
    {
      if !confirmed {
        return None;
      }
      var index := FindIndex(products, productId);
      if index != -1 {
        deleted := Some(products[index]);
        products := SpliceOne(products, index);
      } else {
        deleted := None;
      }
    }
  }

  /**
   * `uploads.findIndex(f => f.path === path)`. It searches pending uploads
   * by path as `Products.FindIndex` searches products by id; the two stay
   * first-order, each over its own record and key, so that the proofs
   * about saving, deleting and removing uploads use their contracts
   * without applying a predicate argument.
   */
  function FindUpload(uploads: seq<PendingUpload>, path: string): (k: int)
    ensures -1 <= k < |uploads|
    ensures k == -1 <==> forall i :: 0 <= i < |uploads| ==> uploads[i].path != path
    ensures 0 <= k ==> uploads[k].path == path && forall i :: 0 <= i < k ==> uploads[i].path != path
    decreases |uploads|
  {
    if uploads == [] then -1
    else if uploads[0].path == path then 0
    else
      var k := FindUpload(uploads[1..], path);
      if k == -1 then -1 else k + 1
  }

  /** The pending uploads without the first one stored under `path`. */
  function RemoveUpload(uploads: seq<PendingUpload>, path: string): (r: seq<PendingUpload>)
    ensures FindUpload(uploads, path) == -1 <==> r == uploads
    ensures FindUpload(uploads, path) != -1 ==> r == SpliceOne(uploads, FindUpload(uploads, path))
  {
    var k := FindUpload(uploads, path);
    if k == -1 then uploads else
      assert |SpliceOne(uploads, k)| < |uploads|;
      SpliceOne(uploads, k)
  }

  lemma {:induction false} FindUploadAppended(uploads: seq<PendingUpload>, u: PendingUpload)
    requires FindUpload(uploads, u.path) == -1
    ensures FindUpload(uploads + [u], u.path) == |uploads|
    decreases |uploads|
  {
    if uploads != [] {
      assert (uploads + [u])[1..] == uploads[1..] + [u];
      FindUploadAppended(uploads[1..], u);
    }
  }

  /** Removing an upload that was just added for a path no other upload has restores the list. */
  lemma AddThenRemoveUpload(uploads: seq<PendingUpload>, u: PendingUpload)
    requires FindUpload(uploads, u.path) == -1
    ensures RemoveUpload(uploads + [u], u.path) == uploads
  {
    var r := uploads + [u];
    FindUploadAppended(uploads, u);
    assert r[..|uploads|] == uploads;
  }
}
