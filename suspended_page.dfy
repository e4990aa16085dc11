/** The decision rules of the suspended page script: the URL shown in the
    top bar, the scroll target, the preview/message display, the theme
    classes, the click handler and the message listener.  DOM writes are
    left out; each rule returns the values it would write. */
module SuspendedPage {
  import opened Wrappers

  // ---------------------------------------------------------------------
  // String search (String.prototype.indexOf)
  // ---------------------------------------------------------------------

  /** `p` occurs in `s` at index `j`. */
  predicate OccursAt(s: string, p: string, j: nat)
    requires j + |p| <= |s|
  {
    s[j..j + |p|] == p
  }

  /** First index `>= k` at which `p` occurs in `s`, or -1. */
  function IndexOfFrom(s: string, p: string, k: nat): (i: int)
    decreases |s| - k
    ensures i == -1 || (k <= i && i + |p| <= |s| && OccursAt(s, p, i))
    ensures forall j: nat :: k <= j && j + |p| <= |s| && (i == -1 || j < i) ==> !OccursAt(s, p, j)
  {
    if k + |p| > |s| then -1
    else if OccursAt(s, p, k) then k
    else IndexOfFrom(s, p, k + 1)
  }

  /** `s.indexOf(p)`. */
  function IndexOf(s: string, p: string): (i: int)
    ensures i == -1 || (0 <= i && i + |p| <= |s| && OccursAt(s, p, i))
    ensures forall j: nat :: j + |p| <= |s| && (i == -1 || j < i) ==> !OccursAt(s, p, j)
  {
    IndexOfFrom(s, p, 0)
  }

  /** Concatenation is associative. */
  lemma ConcatAssoc<T>(p: seq<T>, q: seq<T>, r: seq<T>)
    ensures p + (q + r) == (p + q) + r
  {
  }

  // ---------------------------------------------------------------------
  // cleanUrl
  // ---------------------------------------------------------------------

  predicate IsQueryMark(c: char) {
    c == '?' || c == '#'
  }

  /** The regular expression `/\/?[?#]+/` matches at position `p`: an
      optional slash followed by at least one `?` or `#`. */
  predicate QueryMatchAt(s: string, p: nat)
    requires p < |s|
  {
    IsQueryMark(s[p]) || (s[p] == '/' && p + 1 < |s| && IsQueryMark(s[p + 1]))
  }

  /** Leftmost match position `>= k` of `/\/?[?#]+/`, or -1 (no match). */
  function QueryMatchFrom(s: string, k: nat): (m: int)
    decreases |s| - k
    ensures m == -1 || (k <= m < |s| && QueryMatchAt(s, m))
    ensures forall j :: k <= j < |s| && (m == -1 || j < m) ==> !QueryMatchAt(s, j)
  {
    if k >= |s| then -1
    else if QueryMatchAt(s, k) then k
    else QueryMatchFrom(s, k + 1)
  }

  /** First index `>= k` holding a `?` or `#`, or -1. */
  function QueryMarkFrom(s: string, k: nat): (q: int)
    decreases |s| - k
    ensures q == -1 || (k <= q < |s| && IsQueryMark(s[q]))
    ensures forall j :: k <= j < |s| && (q == -1 || j < q) ==> !IsQueryMark(s[j])
  {
    if k >= |s| then -1
    else if IsQueryMark(s[k]) then k
    else QueryMarkFrom(s, k + 1)
  }

  /** `match.index` of `/\/?[?#]+/` is the first `?` or `#`, moved one back
      when a slash stands directly before it. */
  lemma QueryMatchIsFirstMark(s: string)
    ensures var q := QueryMarkFrom(s, 0);
      QueryMatchFrom(s, 0) == (if q == -1 then -1 else if q > 0 && s[q - 1] == '/' then q - 1 else q)
  {
    var q := QueryMarkFrom(s, 0);
    var m := QueryMatchFrom(s, 0);
    if m == -1 {
      assert q >= 0 ==> QueryMatchAt(s, q);
    } else if IsQueryMark(s[m]) {
      assert q >= 0 ==> (QueryMatchAt(s, q) && q <= m);
      assert m > 0 ==> !QueryMatchAt(s, m - 1);
    } else {
      assert s[m] == '/' && IsQueryMark(s[m + 1]);
      assert q >= 0 ==> (QueryMatchAt(s, q) && q <= m + 1);
    }
  }

  /** `cleanUrl`: the URL as shown in the suspended page's top bar.  The
      scheme is dropped through the first `//` (only when it is not at index
      0), the text is cut at the leftmost match of `/\/?[?#]+/`, and one
      trailing slash (`/\/$/`) is removed. */
  function CleanUrl(url: string): (r: string)
    ensures url == "" ==> r == ""
    ensures |r| <= |url|
    ensures forall j :: 0 <= j < |r| ==> !IsQueryMark(r[j])
  {
    if url == "" then ""
    else
      var i := IndexOf(url, "//");
      var afterScheme := if i > 0 then url[i + 2..] else url;
      var m := QueryMatchFrom(afterScheme, 0);
      var beforeQuery := if m >= 0 then afterScheme[..m] else afterScheme;
      assert forall j :: 0 <= j < |beforeQuery| ==> !IsQueryMark(beforeQuery[j]) by {
        forall j | 0 <= j < |beforeQuery|
          ensures !IsQueryMark(beforeQuery[j])
        {
          assert !QueryMatchAt(afterScheme, j);
        }
      }
      if |beforeQuery| > 0 && beforeQuery[|beforeQuery| - 1] == '/' then beforeQuery[..|beforeQuery| - 1]
      else beforeQuery
  }

  /** The cleaned URL is one contiguous piece of the input. */
  lemma CleanUrlIsSlice(url: string)
    ensures var r := CleanUrl(url);
      exists lo: nat :: lo + |r| <= |url| && OccursAt(url, r, lo)
  {
    var r := CleanUrl(url);
    if url == "" {
      assert OccursAt(url, r, 0);
    } else {
      var i := IndexOf(url, "//");
      var lo := if i > 0 then i + 2 else 0;
      var afterScheme := if i > 0 then url[i + 2..] else url;
      assert afterScheme == url[lo..];
      var m := QueryMatchFrom(afterScheme, 0);
      var beforeQuery := if m >= 0 then afterScheme[..m] else afterScheme;
      assert beforeQuery == url[lo..lo + |beforeQuery|];
      assert r == beforeQuery[..|r|];
      assert r == url[lo..lo + |r|];
      assert OccursAt(url, r, lo);
    }
  }

  /** A host-and-path string with no scheme separator after index 0, no `?`
      or `#` and no trailing slash is shown unchanged. */
  lemma CleanUrlKeepsPlainUrl(url: string)
    requires IndexOf(url, "//") <= 0
    requires forall j :: 0 <= j < |url| ==> !IsQueryMark(url[j])
    requires url == [] || url[|url| - 1] != '/'
    ensures CleanUrl(url) == url
  {
    if url != "" {
      forall j | 0 <= j < |url|
        ensures !QueryMatchAt(url, j)
      {
        assert j + 1 < |url| ==> !IsQueryMark(url[j + 1]);
      }
    }
  }

  /** No two slashes stand next to each other. */
  predicate NoDoubleSlash(s: string) {
    forall j :: 0 <= j && j + 1 < |s| ==> s[j] != '/' || s[j + 1] != '/'
  }

  /** No `?` or `#`. */
  predicate NoQueryMark(s: string) {
    forall j :: 0 <= j < |s| ==> !IsQueryMark(s[j])
  }

  /** What starts a query or a fragment, with or without a slash before it. */
  predicate QueryStart(sep: string) {
    sep == "?" || sep == "#" || sep == "/?" || sep == "/#"
  }

  /** A string without two adjacent slashes has no `//`. */
  lemma NoSchemeSeparator(s: string)
    requires NoDoubleSlash(s)
    ensures IndexOf(s, "//") == -1
  {
    forall j: nat | j + 2 <= |s|
      ensures !OccursAt(s, "//", j)
    {
      assert s[j..j + 2][0] == s[j] && s[j..j + 2][1] == s[j + 1];
    }
  }

  /** Two pieces without `//` joined where no slash meets a slash. */
  lemma NoDoubleSlashJoin(a: string, b: string)
    requires NoDoubleSlash(a) && NoDoubleSlash(b)
    requires a == "" || b == "" || a[|a| - 1] != '/' || b[0] != '/'
    ensures NoDoubleSlash(a + b)
  {
    forall j | 0 <= j && j + 1 < |a + b|
      ensures (a + b)[j] != '/' || (a + b)[j + 1] != '/'
    {
      if j + 1 < |a| {
        assert (a + b)[j] == a[j] && (a + b)[j + 1] == a[j + 1];
      } else if j >= |a| {
        assert (a + b)[j] == b[j - |a|] && (a + b)[j + 1] == b[j + 1 - |a|];
      }
    }
  }

  /** In `scheme + "//" + rest`, the first `//` is the scheme's. */
  lemma SchemeSeparatorAt(scheme: string, rest: string)
    requires forall j :: 0 <= j < |scheme| ==> scheme[j] != '/'
    ensures IndexOf(scheme + "//" + rest, "//") == |scheme|
    ensures (scheme + "//" + rest)[|scheme| + 2..] == rest
  {
    var url := scheme + "//" + rest;
    var n := |scheme|;
    assert OccursAt(url, "//", n) by { assert url[n..n + 2] == "//"; }
    forall j: nat | j < n
      ensures !OccursAt(url, "//", j)
    {
      assert url[j..j + 2][0] == url[j] == scheme[j];
    }
  }

  /** The regular expression matches exactly where the query starts: at the
      slash of `/?` or `/#`, or at the mark itself. */
  lemma QueryMatchAtStart(p: string, sep: string, q: string)
    requires NoQueryMark(p) && (p == "" || p[|p| - 1] != '/')
    requires QueryStart(sep)
    ensures QueryMatchFrom(p + sep + q, 0) == |p|
    ensures (p + sep + q)[..|p|] == p
  {
    var u := p + sep + q;
    assert QueryMatchAt(u, |p|) by {
      assert u[|p|] == sep[0];
      assert |sep| == 2 ==> u[|p| + 1] == sep[1];
    }
    forall j | 0 <= j < |p|
      ensures !QueryMatchAt(u, j)
    {
      assert u[j] == p[j];
      assert j + 1 < |p| ==> u[j + 1] == p[j + 1];
    }
    assert u[..|p|] == p;
  }

  /** With nothing to cut, the query step keeps the text. */
  lemma NoQueryMatch(s: string)
    requires NoQueryMark(s)
    ensures QueryMatchFrom(s, 0) == -1
  {
    forall j | 0 <= j < |s|
      ensures !QueryMatchAt(s, j)
    {
      assert j + 1 < |s| ==> !IsQueryMark(s[j + 1]);
    }
  }

  /** A full URL: the scheme through `//` is dropped and the query or
      fragment is cut off with a slash directly before it, so
      `http://host/a/b?x` is shown as `host/a/b`. */
  lemma CleanUrlOfFullUrl(scheme: string, p: string, sep: string, q: string)
    requires scheme != "" && forall j :: 0 <= j < |scheme| ==> scheme[j] != '/'
    requires NoQueryMark(p) && (p == "" || p[|p| - 1] != '/')
    requires QueryStart(sep)
    ensures CleanUrl(scheme + "//" + p + sep + q) == p
  {
    var rest := p + sep + q;
    var url := scheme + "//" + rest;
    assert scheme + "//" + p + sep + q == url;
    SchemeSeparatorAt(scheme, rest);
    QueryMatchAtStart(p, sep, q);
    var afterScheme := url[|scheme| + 2..];
    assert afterScheme[..|p|] == p;
  }

  /** A URL without a scheme: the query or fragment is cut off together
      with a slash directly before it, and one trailing slash is dropped. */
  lemma CleanUrlCutsQuery(p: string, q: string)
    requires p != "" && NoQueryMark(p) && NoDoubleSlash(p) && p[|p| - 1] != '/'
    requires NoDoubleSlash(q)
    ensures CleanUrl(p + "/?" + q) == p
    ensures CleanUrl(p + "#" + q) == p
    ensures CleanUrl(p + "/") == p
  {
    CutsAfterPlain(p, "/?", q);
    CutsAfterPlain(p, "#", q);
    var u3 := p + "/";
    NoDoubleSlashJoin(p, "/");
    NoSchemeSeparator(u3);
    NoQueryMatch(u3);
    assert u3[..|p|] == p;
  }

  /** The query step alone, for a URL whose text has no `//`. */
  lemma CutsAfterPlain(p: string, sep: string, q: string)
    requires p != "" && NoQueryMark(p) && NoDoubleSlash(p) && p[|p| - 1] != '/'
    requires NoDoubleSlash(q) && QueryStart(sep)
    ensures CleanUrl(p + sep + q) == p
  {
    NoDoubleSlashJoin(p, sep);
    NoDoubleSlashJoin(p + sep, q);
    NoSchemeSeparator(p + sep + q);
    QueryMatchAtStart(p, sep, q);
  }

  /** Everything through the first `//` is dropped when something stands
      before it, and then at most one trailing slash is removed. */
  lemma CleanUrlDropsScheme(scheme: string, path: string)
    requires scheme != "" && forall j :: 0 <= j < |scheme| ==> scheme[j] != '/'
    requires NoQueryMark(path)
    ensures CleanUrl(scheme + "//" + path)
      == if path != "" && path[|path| - 1] == '/' then path[..|path| - 1] else path
    ensures CleanUrl(scheme + "//" + path + "/") == path
  {
    DropsScheme(scheme, path);
    DropsScheme(scheme, path + "/");
    assert scheme + "//" + path + "/" == scheme + "//" + (path + "/");
    assert (path + "/")[..|path|] == path;
  }

  /** The scheme step and the query step of `cleanUrl` for a URL whose only
      text before its first `//` is a scheme and which has no `?` or `#`. */
  lemma DropsScheme(scheme: string, path: string)
    requires scheme != "" && forall j :: 0 <= j < |scheme| ==> scheme[j] != '/'
    requires NoQueryMark(path)
    ensures CleanUrl(scheme + "//" + path)
      == if path != "" && path[|path| - 1] == '/' then path[..|path| - 1] else path
  {
    SchemeSeparatorAt(scheme, path);
    NoQueryMatch(path);
  }

  // ---------------------------------------------------------------------
  // parseInt and setScrollPosition
  // ---------------------------------------------------------------------

  predicate IsDigit(c: char) {
    '0' <= c <= '9'
  }

  predicate IsSpace(c: char) {
    c == ' ' || c == '\t' || c == '\n' || c == '\r'
  }

  function DigitValue(c: char): nat
    requires IsDigit(c)
  {
    (c as int - '0' as int) as nat
  }

  function DigitChar(d: nat): (c: char)
    requires d < 10
    ensures IsDigit(c) && DigitValue(c) == d
  {
    (d + '0' as int) as char
  }

  function TrimStart(s: string): (t: string)
    ensures t == [] || !IsSpace(t[0])
    ensures |t| <= |s| && t == s[|s| - |t|..]
  {
    if |s| > 0 && IsSpace(s[0]) then TrimStart(s[1..]) else s
  }

  /** The longest prefix of decimal digits. */
  function LeadingDigits(s: string): (ds: string)
    ensures forall i :: 0 <= i < |ds| ==> IsDigit(ds[i])
  {
    if |s| > 0 && IsDigit(s[0]) then [s[0]] + LeadingDigits(s[1..]) else ""
  }

  /** The value of a digit string, most significant digit first. */
  function DigitsValue(ds: string): nat
    requires forall i :: 0 <= i < |ds| ==> IsDigit(ds[i])
  {
    if ds == [] then 0 else 10 * DigitsValue(ds[..|ds| - 1]) + DigitValue(ds[|ds| - 1])
  }

  /** The unsigned part of `parseInt`: the longest run of leading digits,
      `None` when there is none. */
  function ParseDigits(body: string): (r: Option<nat>)
    ensures r.None? <==> body == [] || !IsDigit(body[0])
  {
    var ds := LeadingDigits(body);
    if ds == [] then None else Some(DigitsValue(ds))
  }

  /** The text after an optional leading sign. */
  function Unsigned(t: string): string {
    if |t| > 0 && (t[0] == '-' || t[0] == '+') then t[1..] else t
  }

  /** `parseInt` after white space is trimmed. */
  function ParseSigned(t: string): Option<int> {
    match ParseDigits(Unsigned(t))
    case None => None
    case Some(v) => if |t| > 0 && t[0] == '-' then Some(-(v as int)) else Some(v as int)
  }

  /** `parseInt(s)` in base 10: leading white space, an optional sign and
      the longest run of digits; `None` stands for `NaN`. */
  function ParseInt(s: string): (r: Option<int>)
    ensures s == "" ==> r.None?
  {
    ParseSigned(TrimStart(s))
  }

  /** `parseInt` gives `NaN` for text without a digit, and a negative
      number only for text with a minus sign. */
  lemma ParseIntNeedsDigits(s: string)
    ensures (forall i :: 0 <= i < |s| ==> !IsDigit(s[i])) ==> ParseInt(s).None?
    ensures ParseInt(s).Some? && ParseInt(s).value < 0 ==> exists i :: 0 <= i < |s| && s[i] == '-'
  {
    var t := TrimStart(s);
    assert t == s[|s| - |t|..];
    if ParseInt(s).Some? && ParseInt(s).value < 0 {
      assert s[|s| - |t|] == t[0] == '-';
    }
  }

  /** Decimal rendering of a natural number, as `String(n)` gives it. */
  function Digits(n: nat): (ds: string)
    ensures |ds| > 0
    ensures forall i :: 0 <= i < |ds| ==> IsDigit(ds[i])
  {
    if n < 10 then [DigitChar(n)] else Digits(n / 10) + [DigitChar(n % 10)]
  }

  /** Decimal rendering of an integer. */
  function Decimal(n: int): string {
    if n < 0 then "-" + Digits(-n) else Digits(n)
  }

  lemma {:induction false} DigitsValueOfDigits(n: nat)
    ensures DigitsValue(Digits(n)) == n
  {
    if n >= 10 {
      var ds := Digits(n);
      assert ds[..|ds| - 1] == Digits(n / 10);
      DigitsValueOfDigits(n / 10);
    }
  }

  lemma {:induction false} LeadingDigitsOfDigits(ds: string, rest: string)
    requires forall i :: 0 <= i < |ds| ==> IsDigit(ds[i])
    requires rest == [] || !IsDigit(rest[0])
    ensures LeadingDigits(ds + rest) == ds
  {
    if ds != [] {
      assert (ds + rest)[1..] == ds[1..] + rest;
      LeadingDigitsOfDigits(ds[1..], rest);
    } else {
      assert ds + rest == rest;
    }
  }

  lemma ParseDigitsOfDigits(ds: string, rest: string)
    requires |ds| > 0 && forall i :: 0 <= i < |ds| ==> IsDigit(ds[i])
    requires rest == [] || !IsDigit(rest[0])
    ensures ParseDigits(ds + rest) == Some(DigitsValue(ds))
  {
    LeadingDigitsOfDigits(ds, rest);
  }

  lemma TrimStartOfNonSpace(s: string)
    requires |s| > 0 && !IsSpace(s[0])
    ensures TrimStart(s) == s
  {
  }

  /** `parseInt` reads back a run of digits followed by non-digit text. */
  lemma ParseIntOfDigits(ds: string, rest: string)
    requires |ds| > 0 && forall i :: 0 <= i < |ds| ==> IsDigit(ds[i])
    requires rest == [] || !IsDigit(rest[0])
    ensures ParseInt(ds + rest) == Some(DigitsValue(ds) as int)
  {
    var s := ds + rest;
    assert IsDigit(s[0]) by {
      assert s[0] == ds[0];
    }
    ParseIntOfPlain(s);
    ParseDigitsOfDigits(ds, rest);
  }

  /** A digit in front: `parseInt` reads the digits. */
  lemma ParseIntOfPlain(s: string)
    requires |s| > 0 && IsDigit(s[0])
    ensures ParseInt(s) == Some(ParseDigits(s).value as int)
  {
    TrimStartOfNonSpace(s);
  }

  /** A minus sign before a digit negates what the digits read. */
  lemma ParseIntOfMinus(s: string)
    requires |s| > 1 && s[0] == '-' && IsDigit(s[1])
    ensures ParseInt(s) == Some(-(ParseDigits(s[1..]).value as int))
  {
    TrimStartOfNonSpace(s);
  }

  /** `parseInt` reads back the decimal rendering of any integer, whatever
      non-digit text follows it. */
  lemma ParseIntOfDecimal(n: int, rest: string)
    requires rest == [] || !IsDigit(rest[0])
    ensures ParseInt(Decimal(n) + rest) == Some(n)
  {
    if n < 0 {
      ParseIntOfNegative(-n, rest);
    } else {
      ParseIntOfNatural(n, rest);
    }
  }

  lemma ParseIntOfNatural(n: nat, rest: string)
    requires rest == [] || !IsDigit(rest[0])
    ensures ParseInt(Digits(n) + rest) == Some(n)
  {
    ParseDigitsOfNatural(n, rest);
    ParseIntOfPlain(Digits(n) + rest);
  }

  lemma ParseIntOfNegative(n: nat, rest: string)
    requires n > 0
    requires rest == [] || !IsDigit(rest[0])
    ensures ParseInt(Decimal(-(n as int)) + rest) == Some(-(n as int))
  {
    DecimalOfNegative(n, rest);
    ParseDigitsOfNatural(n, rest);
    ParseIntOfSignedDigits(Decimal(-(n as int)) + rest, Digits(n) + rest, n);
  }

  /** A minus sign followed by text whose digits read `v` is read as `-v`. */
  lemma ParseIntOfSignedDigits(s: string, t: string, v: nat)
    requires |s| > 1 && s[0] == '-' && s[1..] == t
    requires |t| > 0 && IsDigit(t[0]) && ParseDigits(t) == Some(v)
    ensures ParseInt(s) == Some(-(v as int))
  {
    ParseIntOfMinus(s);
  }

  /** The digits of `n`, whatever non-digit text follows them, start with a
      digit and read back as `n`. */
  lemma ParseDigitsOfNatural(n: nat, rest: string)
    requires rest == [] || !IsDigit(rest[0])
    ensures |Digits(n) + rest| > 0 && IsDigit((Digits(n) + rest)[0])
    ensures ParseDigits(Digits(n) + rest) == Some(n)
  {
    var ds := Digits(n);
    assert (ds + rest)[0] == ds[0];
    DigitsValueOfDigits(n);
    ParseDigitsOfDigits(ds, rest);
  }

  /** The rendering of a negative number, followed by `rest`, is a minus
      sign and then its digits followed by `rest`. */
  lemma DecimalOfNegative(n: nat, rest: string)
    requires n > 0
    ensures var s := Decimal(-(n as int)) + rest;
      |s| > 1 && s[0] == '-' && s[1..] == Digits(n) + rest && s[1] == (Digits(n) + rest)[0]
  {
    var ds := Digits(n);
    assert Decimal(-(n as int)) == ['-'] + ds;
    var s := Decimal(-(n as int)) + rest;
    assert s[1..] == ds + rest;
  }

  /** `(scrollPosition && parseInt(scrollPosition)) || 0`. */
  function ScrollPosition(scrollPosition: string): (pos: int)
    ensures scrollPosition == "" ==> pos == 0
    ensures ParseInt(scrollPosition).None? ==> pos == 0
    ensures pos != 0 ==> ParseInt(scrollPosition) == Some(pos)
    ensures scrollPosition != "" && ParseInt(scrollPosition).Some? ==> pos == ParseInt(scrollPosition).value
  {
    if scrollPosition == "" then 0
    else ParseInt(scrollPosition).GetOr(0)
  }

  /** `setScrollPosition`: the vertical scroll target.  Only the full-page
      preview mode `'2'` scrolls, and only past 15 pixels. */
  function ScrollTarget(scrollPosition: string, previewMode: string): (y: int)
    ensures y == 0 || (previewMode == "2" && y > 166)
  {
    var pos := ScrollPosition(scrollPosition);
    if previewMode == "2" && pos > 15 then pos + 151 else 0
  }

  /** A position stored as the decimal string of `n`, whatever non-digit
      text follows it, is read back as `n`. */
  lemma ScrollPositionOfDecimal(n: int, rest: string)
    requires rest == [] || !IsDigit(rest[0])
    ensures ScrollPosition(Decimal(n) + rest) == n
  {
    ParseIntOfDecimal(n, rest);
    assert |Digits(if n < 0 then -n else n)| > 0;
  }

  /** A position stored as a decimal string is restored with the 151-pixel
      offset exactly when the preview mode is `'2'` and it exceeds 15. */
  lemma ScrollTargetOfDecimal(n: int, previewMode: string)
    ensures ScrollTarget(Decimal(n), previewMode) == if previewMode == "2" && n > 15 then n + 151 else 0
  {
    ParseIntOfDecimal(n, "");
    assert Decimal(n) + "" == Decimal(n);
    assert |Digits(if n < 0 then -n else n)| > 0;
  }

  // ---------------------------------------------------------------------
  // toggleImagePreviewVisibility
  // ---------------------------------------------------------------------

  /** What the preview toggle writes.  `container` and `overflow` are
      `None` when no preview container exists after the call; `message` is
      `None` when the page has no `suspendedMsg` element.  JavaScript's
      falsy `previewMode`/`previewUri` are the empty string here. */
  datatype PreviewDisplay = PreviewDisplay(
    created: bool,
    container: Option<string>,
    overflow: Option<string>,
    message: Option<string>,
    previewModeClass: bool)

  predicate PreviewHidden(previewMode: string, previewUri: string) {
    previewMode == "0" || previewUri == ""
  }

  function TogglePreview(previewMode: string, previewUri: string, containerExists: bool, messageExists: bool): (d: PreviewDisplay)
    ensures d.created ==> !containerExists && !PreviewHidden(previewMode, previewUri)
    ensures d.container.Some? <==> containerExists || d.created
    ensures d.overflow.Some? <==> d.container.Some?
    ensures d.message.Some? <==> messageExists
    ensures d.container.Some? && d.message.Some? ==> (d.container == Some("block") <==> d.message == Some("none"))
    ensures d.overflow == Some("auto") ==> d.container == Some("block") && previewMode == "2"
    ensures d.container.Some? ==> (d.container == Some("none") <==> PreviewHidden(previewMode, previewUri))
    ensures d.container.Some? ==> d.container == Some("none") || d.container == Some("block")
    ensures d.message.Some? ==> (d.message == Some("flex") <==> PreviewHidden(previewMode, previewUri))
    ensures d.message.Some? ==> d.message == Some("flex") || d.message == Some("none")
    ensures d.overflow.Some? ==> (d.overflow == Some("auto") <==> previewMode == "2" && previewUri != "")
    ensures d.previewModeClass <==> !PreviewHidden(previewMode, previewUri)
    ensures d.container == Some("block") ==> d.previewModeClass
  {
    var hidden := PreviewHidden(previewMode, previewUri);
    var created := !containerExists && previewUri != "" && previewMode != "" && previewMode != "0";
    var present := containerExists || created;
    PreviewDisplay(
      created,
      if present then Some(if hidden then "none" else "block") else None,
      if present then Some(if previewMode == "2" && previewUri != "" then "auto" else "hidden") else None,
      if messageExists then Some(if hidden then "flex" else "none") else None,
      !hidden)
  }

  // ---------------------------------------------------------------------
  // setTheme
  // ---------------------------------------------------------------------

  /** Body class `dark` and, when the favicon wrapper exists, its
      `faviconWrapLowContrast` class. */
  datatype ThemeClasses = ThemeClasses(dark: bool, lowContrast: Option<bool>)

  function SetTheme(theme: string, isLowContrastFavicon: bool, wrapExists: bool): (c: ThemeClasses)
    ensures c.dark <==> theme == "dark"
    ensures c.lowContrast.Some? <==> wrapExists
    ensures c.lowContrast == Some(true) ==> c.dark && isLowContrastFavicon
  {
    ThemeClasses(
      theme == "dark",
      if wrapExists then Some(theme == "dark" && isLowContrastFavicon) else None)
  }

  /** With the favicon wrapper present, the low-contrast frame appears
      exactly for the dark theme with a low-contrast favicon. */
  lemma SetThemeLowContrastOnlyWhenDark(theme: string, isLowContrastFavicon: bool)
    ensures SetTheme(theme, isLowContrastFavicon, true).lowContrast == Some(true) <==> theme == "dark" && isLowContrastFavicon
  {
  }

  // ---------------------------------------------------------------------
  // handleUnsuspendRequest
  // ---------------------------------------------------------------------

  /** A click event: the clicked element's id (`""` when it has none) and
      `event.which`. */
  datatype ClickEvent = ClickEvent(targetId: string, which: int)

  const ShortcutLinkId: string := "setKeyboardShortcut"

  /** The action sent to the service worker, if any. */
  function HandleUnsuspendRequest(event: Option<ClickEvent>): (sent: Option<string>)
    ensures sent == Some("openShortcutsPage") <==> event.Some? && event.value.targetId == ShortcutLinkId
    ensures sent == Some("unsuspendTab") <==> event.Some? && event.value.targetId != ShortcutLinkId && event.value.which == 1
    ensures sent.None? <==> event.None? || (event.value.targetId != ShortcutLinkId && event.value.which != 1)
  {
    match event
    case None => None
    case Some(e) =>
      if e.targetId == ShortcutLinkId then Some("openShortcutsPage")
      else if e.which == 1 then Some("unsuspendTab")
      else None
  }

  // ---------------------------------------------------------------------
  // Message listener
  // ---------------------------------------------------------------------

  /** The object passed to `sendResponse`. */
  datatype PageReply = PageReply(success: bool, message: Option<string>, error: Option<string>)

  /** Which rendering the listener performs.  `UpdatePreview(scrolled)`
      says whether the scroll position was restored after the preview
      toggle settled. */
  datatype PageEffect =
    | InitPage
    | ShowNoConnectivity
    | SetCommand
    | UpdateTheme
    | UpdatePreview(scrolled: bool)
    | NoEffect

  /** The listener's return value is `keepOpen`. */
  datatype Listened = Listened(effect: PageEffect, reply: PageReply, keepOpen: bool)

  predicate KnownAction(action: string) {
    action in ["initTab", "showNoConnectivityMessage", "updateCommand", "updateTheme", "updatePreviewMode"]
  }

  /** The `onMessage` listener.  `previewFailure` is how the asynchronous
      preview toggle settled (`None`: resolved). */
  function OnMessage(action: string, previewFailure: Option<string>): (l: Listened)
    ensures l.keepOpen <==> action == "updatePreviewMode"
    ensures l.reply.success <==> KnownAction(action) && !(action == "updatePreviewMode" && previewFailure.Some?)
    ensures l.reply.success <==> l.reply.error.None?
    ensures !KnownAction(action) ==> l.effect == NoEffect && l.reply.error == Some("Unknown action")
    ensures action == "updatePreviewMode" ==> l.effect == UpdatePreview(previewFailure.None?)
    ensures l.reply.message.Some? ==> action == "initTab"
  {
    match action
    case "initTab" => Listened(InitPage, PageReply(true, Some("Page initialized"), None), false)
    case "showNoConnectivityMessage" => Listened(ShowNoConnectivity, PageReply(true, None, None), false)
    case "updateCommand" => Listened(SetCommand, PageReply(true, None, None), false)
    case "updateTheme" => Listened(UpdateTheme, PageReply(true, None, None), false)
    case "updatePreviewMode" =>
      (match previewFailure
       case None => Listened(UpdatePreview(true), PageReply(true, None, None), true)
       case Some(e) => Listened(UpdatePreview(false), PageReply(false, None, Some(e)), true))
    case _ => Listened(NoEffect, PageReply(false, None, Some("Unknown action")), false)
  }
}
