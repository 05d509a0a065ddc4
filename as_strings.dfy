/** The configuration of a string interpretation (`AsStrings`): how many header
    bytes precede each entry and which length-prefix encoding is used, with the
    identity it exposes to caches and schema descriptions. */
module Config {
  import opened Wrappers
  import opened LengthPrefix

  datatype AsStrings = AsStrings(headerBytes: nat, lengthBytes: LengthBytes, typename: Option<string>)

  /** What `__eq__` may be compared with: a string interpretation or any other interpretation. */
  datatype Interpretation = Strings(config: AsStrings) | OtherInterpretation

  datatype ConfigError = InvalidLengthBytes

  /** The `length_bytes` string naming an encoding. */
  function LengthBytesName(m: LengthBytes): string
  {
    match m
    case OneToFive => "1-5"
    case Four => "4"
  }

  /** `AsStrings.__init__`: only "1-5" and "4" are accepted, and every argument is kept as given. */
  function NewAsStrings(headerBytes: nat := 0, lengthBytes: string := "1-5", typename: Option<string> := None)
    : (r: Result<AsStrings, ConfigError>)
    ensures r.Ok? <==> lengthBytes == "1-5" || lengthBytes == "4"
    ensures r.Ok? ==> r.value.headerBytes == headerBytes && r.value.typename == typename
    ensures r.Ok? ==> LengthBytesName(r.value.lengthBytes) == lengthBytes
    ensures r.Err? ==> r.error == InvalidLengthBytes
  {
    if lengthBytes == "1-5" then Ok(AsStrings(headerBytes, OneToFive, typename))
    else if lengthBytes == "4" then Ok(AsStrings(headerBytes, Four, typename))
    else Err(InvalidLengthBytes)
  }

  /** Called with no arguments, the constructor gives no header, the "1-5" encoding and no type name. */
  lemma NewAsStringsDefaults()
    ensures NewAsStrings() == Ok(AsStrings(0, OneToFive, None))
  {
  }

  /** `__eq__`: another string interpretation with the same header size and encoding; the type name does not take part. */
  function Equals(self: AsStrings, other: Interpretation): (r: bool)
    ensures r <==> other.Strings? && other.config.(typename := self.typename) == self
  {
    other.Strings? && self.headerBytes == other.config.headerBytes && self.lengthBytes == other.config.lengthBytes
  }

  /** Equality of configurations is an equivalence that ignores the type name and never holds for other interpretations. */
  lemma EqualsIsEquivalence(a: AsStrings, b: AsStrings, c: AsStrings, name: Option<string>)
    ensures Equals(a, Strings(a))
    ensures Equals(a, Strings(b)) ==> Equals(b, Strings(a))
    ensures Equals(a, Strings(b)) && Equals(b, Strings(c)) ==> Equals(a, Strings(c))
    ensures Equals(a, Strings(a.(typename := name)))
    ensures !Equals(a, OtherInterpretation)
  {
  }

  /** `typename`: the given name, or "char*" when none was given. */
  function Typename(self: AsStrings): (name: string)
    ensures self.typename.None? ==> name == "char*"
    ensures self.typename.Some? ==> name == self.typename.value
  {
    if self.typename.None? then "char*" else self.typename.value
  }

  predicate IsDigits(s: string)
  {
    forall i :: 0 <= i < |s| ==> '0' <= s[i] <= '9'
  }

  /** The decimal digits of a natural number, as str.format writes them. */
  function Decimal(n: nat): (s: string)
    ensures |s| > 0 && IsDigits(s)
  {
    var d := "0123456789"[n % 10];
    if n < 10 then [d] else Decimal(n / 10) + [d]
  }

  /** The number that a string of decimal digits denotes. */
  function DecimalValue(s: string): nat
    requires IsDigits(s)
  {
    if s == [] then 0 else DecimalValue(s[..|s| - 1]) * 10 + (s[|s| - 1] as int - '0' as int)
  }

  lemma {:induction false} DecimalValueOfDecimal(n: nat)
    ensures DecimalValue(Decimal(n)) == n
  {
    var s := Decimal(n);
    if n >= 10 {
      DecimalValueOfDecimal(n / 10);
      assert s[..|s| - 1] == Decimal(n / 10);
    }
  }

  /** `repr` of a short string without quotes or backslashes in it. */
  function Quoted(s: string): string
  {
    "'" + s + "'"
  }

  /** `cache_key`: the class name, the header size and the quoted encoding name. */
  function CacheKey(self: AsStrings): (k: string)
    ensures |k| >= 16 && k[..10] == "AsStrings(" && k[|k| - 1] == ')'
  {
    "AsStrings(" + Decimal(self.headerBytes) + KeyTail(self.lengthBytes)
  }

  /** What follows the header size in a cache key: a comma and the quoted encoding name. */
  function KeyTail(m: LengthBytes): (t: string)
    ensures |t| > 0 && t[0] == ','
  {
    "," + Quoted(LengthBytesName(m)) + ")"
  }

  /** The encoding can be read back from the end of a cache key. */
  lemma KeyTailInjective(m1: LengthBytes, m2: LengthBytes)
    requires KeyTail(m1) == KeyTail(m2)
    ensures m1 == m2
  {
  }

  /** A cache key is the class name, then the header size's digits, then the tail. */
  lemma CacheKeyShape(a: AsStrings)
    ensures |CacheKey(a)| >= 10
    ensures CacheKey(a)[10..] == Decimal(a.headerBytes) + KeyTail(a.lengthBytes)
  {
    assert CacheKey(a) == "AsStrings(" + (Decimal(a.headerBytes) + KeyTail(a.lengthBytes));
  }

  /** The position of the first comma in `s`, or its length when there is none. */
  function CommaPosition(s: string): nat
  {
    if s == [] || s[0] == ',' then 0 else 1 + CommaPosition(s[1..])
  }

  lemma {:induction false} CommaAfterDigits(d: string, t: string)
    requires IsDigits(d) && |t| > 0 && t[0] == ','
    ensures CommaPosition(d + t) == |d|
  {
    if d != [] {
      assert (d + t)[1..] == d[1..] + t;
      CommaAfterDigits(d[1..], t);
    }
  }

  /** Two digit strings each followed by a tail starting with a comma are equal when the whole strings are. */
  lemma SplitAtComma(d1: string, t1: string, d2: string, t2: string)
    requires IsDigits(d1) && IsDigits(d2)
    requires |t1| > 0 && |t2| > 0 && t1[0] == ',' && t2[0] == ','
    requires d1 + t1 == d2 + t2
    ensures d1 == d2 && t1 == t2
  {
    CommaAfterDigits(d1, t1);
    CommaAfterDigits(d2, t2);
    assert d1 == (d1 + t1)[..|d1|];
    assert d2 == (d2 + t2)[..|d2|];
    assert t1 == (d1 + t1)[|d1|..];
    assert t2 == (d2 + t2)[|d2|..];
  }

  /** The cache key identifies a configuration exactly up to `__eq__`. */
  lemma CacheKeyIdentifies(a: AsStrings, b: AsStrings)
    ensures CacheKey(a) == CacheKey(b) <==> Equals(a, Strings(b))
  {
    if CacheKey(a) == CacheKey(b) {
      CacheKeyShape(a);
      CacheKeyShape(b);
      SplitAtComma(Decimal(a.headerBytes), KeyTail(a.lengthBytes), Decimal(b.headerBytes), KeyTail(b.lengthBytes));
      DecimalValueOfDecimal(a.headerBytes);
      DecimalValueOfDecimal(b.headerBytes);
      KeyTailInjective(a.lengthBytes, b.lengthBytes);
    }
  }
}
