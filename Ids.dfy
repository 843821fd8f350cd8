/**
 * Identifier and address formatting of scraper.py: `makeId` pads the
 * decimal form of an account number with '0' to width 7, and `makeURL`
 * builds the page address of one tab for that number. The partner of both
 * is a parser that recovers the number (and the tab) from what they build.
 */
module Ids {
  import opened Wrappers

  /** The `Data` enumeration: the tabs of the county's report pages. */
  datatype Data = Account | Building | Land | Deeds | Notes | Sales | Photos

  /** `Data.value`: the page name of each tab. */
  function PageName(tab: Data): string {
    match tab
    case Account => "Account"
    case Building => "Building"
    case Land => "Land"
    case Deeds => "Deeds"
    case Notes => "Notes"
    case Sales => "ImpSales"
    case Photos => "Photo"
  }

  const IdWidth: nat := 7
  const UrlPrefix: string := "https://services.wake.gov/realestate/"
  const UrlQuery: string := ".asp?id="

  predicate IsDigit(c: char) {
    '0' <= c <= '9'
  }

  predicate AllDigits(s: string) {
    forall i :: 0 <= i < |s| ==> IsDigit(s[i])
  }

  function DigitChar(d: nat): (c: char)
    requires d < 10
    ensures IsDigit(c)
  {
    ('0' as int + d) as char
  }

  function DigitValue(c: char): (d: nat)
    requires IsDigit(c)
    ensures d < 10 && DigitChar(d) == c
  {
    c as int - '0' as int
  }

  function Pow10(k: nat): (p: nat)
    ensures p >= 1
  {
    if k == 0 then 1 else 10 * Pow10(k - 1)
  }

  /** `str(n)` for a natural number: its digits, with no leading zero. */
  function Decimal(n: nat): (r: string)
    ensures r != [] && AllDigits(r)
    ensures r[0] == '0' <==> n == 0
  {
    if n < 10 then [DigitChar(n)] else Decimal(n / 10) + [DigitChar(n % 10)]
  }

  /** The value of a string of decimal digits; leading zeros count for nothing. */
  function ParseDecimal(s: string): nat
    requires AllDigits(s)
  {
    if s == [] then 0 else 10 * ParseDecimal(s[..|s| - 1]) + DigitValue(s[|s| - 1])
  }

  lemma {:induction false} DecimalRoundTrip(n: nat)
    ensures ParseDecimal(Decimal(n)) == n
  {
    if n >= 10 {
      var d := Decimal(n);
      assert d[..|d| - 1] == Decimal(n / 10);
      DecimalRoundTrip(n / 10);
    }
  }

  lemma {:induction false} ParsePositive(s: string)
    requires s != [] && AllDigits(s) && s[0] != '0'
    ensures ParseDecimal(s) >= Pow10(|s| - 1)
  {
    if |s| > 1 {
      ParsePositive(s[..|s| - 1]);
    }
  }

  /** Every digit string without a leading zero is the decimal form of its value. */
  lemma {:induction false} ParseDecimalRoundTrip(s: string)
    requires s != [] && AllDigits(s) && (s[0] != '0' || |s| == 1)
    ensures Decimal(ParseDecimal(s)) == s
  {
    if |s| > 1 {
      var p := s[..|s| - 1];
      ParsePositive(s);
      assert ParseDecimal(s) >= 10;
      ParseDecimalRoundTrip(p);
      assert ParseDecimal(s) / 10 == ParseDecimal(p);
      assert ParseDecimal(s) % 10 == DigitValue(s[|s| - 1]);
      assert s == p + [s[|s| - 1]];
    }
  }

  /** The decimal form of `n` has at most `k` digits exactly when `n < 10^k`. */
  lemma {:induction false} DecimalLength(n: nat, k: nat)
    requires k >= 1
    ensures |Decimal(n)| <= k <==> n < Pow10(k)
  {
    if n >= 10 && k > 1 {
      DecimalLength(n / 10, k - 1);
    } else if n >= 10 {
      assert |Decimal(n)| >= 2 by {
        assert Decimal(n) == Decimal(n / 10) + [DigitChar(n % 10)];
      }
    }
  }

  function Zeros(k: nat): (r: string)
    ensures |r| == k && forall i :: 0 <= i < k ==> r[i] == '0'
  {
    if k == 0 then [] else Zeros(k - 1) + ['0']
  }

  /** `makeId(num)`: `f"{num:0>7}"`, the decimal form right-aligned in 7 columns, filled with '0'. */
  function MakeId(n: nat): (r: string)
  {
    var d := Decimal(n);
    if |d| < IdWidth then Zeros(IdWidth - |d|) + d else d
  }

  /**
   * The padded id is never shorter than 7 characters nor than the number's
   * own digits, is all digits, and ends with the number's decimal form.
   */
  lemma MakeIdShape(n: nat)
    ensures |MakeId(n)| == if |Decimal(n)| < IdWidth then IdWidth else |Decimal(n)|
    ensures AllDigits(MakeId(n))
    ensures MakeId(n)[|MakeId(n)| - |Decimal(n)|..] == Decimal(n)
    ensures forall i :: 0 <= i < |MakeId(n)| - |Decimal(n)| ==> MakeId(n)[i] == '0'
  {
  }

  /** Numbers below 10^7 give exactly seven characters. */
  lemma MakeIdSevenWide(n: nat)
    requires n < Pow10(IdWidth)
    ensures |MakeId(n)| == IdWidth
    ensures MakeId(n) == Zeros(IdWidth - |Decimal(n)|) + Decimal(n)
  {
    DecimalLength(n, IdWidth);
  }

  lemma {:induction false} ParseZerosPrefix(k: nat, s: string)
    requires AllDigits(s)
    ensures AllDigits(Zeros(k) + s)
    ensures ParseDecimal(Zeros(k) + s) == ParseDecimal(s)
  {
    if s == [] {
      assert Zeros(k) + s == Zeros(k);
      ParseZeros(k);
    } else {
      var z := Zeros(k) + s;
      assert z[..|z| - 1] == Zeros(k) + s[..|s| - 1];
      ParseZerosPrefix(k, s[..|s| - 1]);
    }
  }

  lemma {:induction false} ParseZeros(k: nat)
    ensures ParseDecimal(Zeros(k)) == 0
  {
    if k > 0 {
      assert Zeros(k)[..k - 1] == Zeros(k - 1);
      ParseZeros(k - 1);
    }
  }

  /** Reading the padded id as a number gives back the number. */
  lemma MakeIdRoundTrip(n: nat)
    ensures AllDigits(MakeId(n)) && ParseDecimal(MakeId(n)) == n
  {
    var d := Decimal(n);
    DecimalRoundTrip(n);
    if |d| < IdWidth {
      ParseZerosPrefix(IdWidth - |d|, d);
    }
  }

  /** Removes leading '0' characters. */
  function StripZeros(s: string): (r: string)
    ensures |r| <= |s|
    ensures forall i :: 0 <= i < |s| - |r| ==> s[i] == '0'
    ensures r != [] ==> r[0] != '0'
  {
    if s != [] && s[0] == '0' then StripZeros(s[1..]) else s
  }

  lemma {:induction false} StripZerosPrefix(k: nat, s: string)
    requires s != [] && s[0] != '0'
    ensures StripZeros(Zeros(k) + s) == s
  {
    if k > 0 {
      ZerosCons(k);
      assert (Zeros(k) + s)[1..] == Zeros(k - 1) + s;
      StripZerosPrefix(k - 1, s);
    } else {
      assert Zeros(k) + s == s;
    }
  }

  lemma ZerosCons(k: nat)
    requires k > 0
    ensures Zeros(k) == ['0'] + Zeros(k - 1)
  {
  }

  /** For a positive number, stripping the padding leaves exactly its decimal form. */
  lemma MakeIdUnpad(n: nat)
    requires n >= 1
    ensures StripZeros(MakeId(n)) == Decimal(n)
    ensures ParseDecimal(StripZeros(MakeId(n))) == n
  {
    var d := Decimal(n);
    if |d| < IdWidth {
      StripZerosPrefix(IdWidth - |d|, d);
    }
    DecimalRoundTrip(n);
  }

  /** Different numbers get different ids. */
  lemma MakeIdInjective(m: nat, n: nat)
    requires MakeId(m) == MakeId(n)
    ensures m == n
  {
    MakeIdRoundTrip(m);
    MakeIdRoundTrip(n);
  }

  /** `makeURL(tab, id)`. */
  function MakeUrl(tab: Data, id: nat): (u: string)
  {
    UrlPrefix + PageName(tab) + UrlQuery + MakeId(id)
  }

  /** The tab whose page name is `name`, if any. */
  function TabOf(name: string): (r: Option<Data>)
    ensures r.Some? ==> PageName(r.value) == name
  {
    if name == "Account" then Some(Account)
    else if name == "Building" then Some(Building)
    else if name == "Land" then Some(Land)
    else if name == "Deeds" then Some(Deeds)
    else if name == "Notes" then Some(Notes)
    else if name == "ImpSales" then Some(Sales)
    else if name == "Photo" then Some(Photos)
    else None
  }

  /** Index of the first `c` in `s`, or `|s|` when there is none. */
  function IndexOf(s: string, c: char): (k: nat)
    ensures k <= |s| && (k < |s| ==> s[k] == c)
    ensures forall i :: 0 <= i < k ==> s[i] != c
  {
    if s == [] || s[0] == c then 0 else 1 + IndexOf(s[1..], c)
  }

  /**
   * Reads an address of the form `makeURL` builds back into its tab and
   * account number; None for anything else.
   */
  function ParseUrl(u: string): (r: Option<(Data, nat)>)
  {
    if |u| < |UrlPrefix| || u[..|UrlPrefix|] != UrlPrefix then None
    else
      var rest := u[|UrlPrefix|..];
      var k := IndexOf(rest, '.');
      var tail := rest[k..];
      match TabOf(rest[..k])
      case None => None
      case Some(tab) =>
        if |tail| < |UrlQuery| || tail[..|UrlQuery|] != UrlQuery then None
        else
          var digits := tail[|UrlQuery|..];
          if digits != [] && AllDigits(digits) then Some((tab, ParseDecimal(digits))) else None
  }

  lemma PageNameRoundTrip(tab: Data)
    ensures TabOf(PageName(tab)) == Some(tab)
    ensures forall i :: 0 <= i < |PageName(tab)| ==> PageName(tab)[i] != '.'
  {
  }

  /** What ParseUrl makes of a prefix, a dot-free name, the query and some digits. */
  lemma ParseUrlParts(name: string, digits: string)
    requires forall i :: 0 <= i < |name| ==> name[i] != '.'
    requires digits != [] && AllDigits(digits)
    ensures ParseUrl(UrlPrefix + name + UrlQuery + digits)
            == match TabOf(name)
               case None => None
               case Some(tab) => Some((tab, ParseDecimal(digits)))
  {
    var u := UrlPrefix + name + UrlQuery + digits;
    var rest := u[|UrlPrefix|..];
    assert u[..|UrlPrefix|] == UrlPrefix;
    assert rest == name + (UrlQuery + digits);
    var k := IndexOf(rest, '.');
    assert k == |name| by {
      assert rest[|name|] == '.';
      assert forall i :: 0 <= i < |name| ==> rest[i] == name[i];
    }
    assert rest[..k] == name;
    assert rest[k..] == UrlQuery + digits;
    assert (UrlQuery + digits)[..|UrlQuery|] == UrlQuery;
    assert (UrlQuery + digits)[|UrlQuery|..] == digits;
  }

  /** The address of a tab and account number can be read back into both. */
  lemma MakeUrlRoundTrip(tab: Data, id: nat)
    ensures ParseUrl(MakeUrl(tab, id)) == Some((tab, id))
  {
    PageNameRoundTrip(tab);
    MakeIdRoundTrip(id);
    MakeIdShape(id);
    ParseUrlParts(PageName(tab), MakeId(id));
  }

  /** Different tabs or numbers never share an address. */
  lemma MakeUrlInjective(t1: Data, i1: nat, t2: Data, i2: nat)
    requires MakeUrl(t1, i1) == MakeUrl(t2, i2)
    ensures t1 == t2 && i1 == i2
  {
    MakeUrlRoundTrip(t1, i1);
    MakeUrlRoundTrip(t2, i2);
  }
}
