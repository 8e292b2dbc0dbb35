/** The JA3 string: decimal numbers joined by '-' in lists joined by ',', and how to read it back. */
module Ja3Printing {
  import opened Machine

  /** The five parts of a JA3 string, GREASE values already removed. */
  datatype Fields = Fields(version: u16, ciphers: seq<u16>, extensions: seq<u16>, curves: seq<u16>, formats: seq<u8>)

  function Digit(d: nat): char
    requires d < 10
  {
    '0' + d as char
  }

  /** std::to_string of an unsigned value. */
  function Decimal(n: nat): string {
    if n < 10 then [Digit(n)] else Decimal(n / 10) + [Digit(n % 10)]
  }

  function Decimals(ns: seq<nat>): seq<string> {
    if ns == [] then [] else [Decimal(ns[0])] + Decimals(ns[1..])
  }

  function Join(parts: seq<string>, separator: char): string {
    if parts == [] then ""
    else if |parts| == 1 then parts[0]
    else parts[0] + [separator] + Join(parts[1..], separator)
  }

  function List(ns: seq<nat>): string { Join(Decimals(ns), '-') }

  /** The string that is hashed. */
  function PreHash(f: Fields): string {
    Join([Decimal(f.version), List(f.ciphers), List(f.extensions), List(f.curves), List(f.formats)], ',')
  }

  // ----- reading it back -----

  function Split(s: string, separator: char): (parts: seq<string>)
    ensures |parts| >= 1
  {
    if s == "" then [""]
    else
      var rest := Split(s[1..], separator);
      if s[0] == separator then [""] + rest else [[s[0]] + rest[0]] + rest[1..]
  }

  function Number(s: string): int {
    if s == "" then 0 else 10 * Number(s[..|s| - 1]) + (s[|s| - 1] as int - '0' as int)
  }

  function Numbers(parts: seq<string>): seq<int> {
    if parts == [] then [] else [Number(parts[0])] + Numbers(parts[1..])
  }

  function ReadList(s: string): seq<int> {
    if s == "" then [] else Numbers(Split(s, '-'))
  }

  ghost predicate Lacks(s: string, c: char) { c !in s }

  lemma {:induction false} NumberOfDecimal(n: nat)
    ensures Decimal(n) != "" && Number(Decimal(n)) == n
    ensures forall c :: c in Decimal(n) ==> '0' <= c <= '9'
  {
    if n >= 10 {
      NumberOfDecimal(n / 10);
      var s := Decimal(n);
      assert s[..|s| - 1] == Decimal(n / 10);
    } else {
      var s := Decimal(n);
      assert s[..|s| - 1] == "";
    }
  }

  /** No leading zeros: the decimal is the shortest one. */
  lemma {:induction false} DecimalIsShort(n: nat)
    ensures |Decimal(n)| > 0 && (Decimal(n)[0] == '0' <==> n == 0)
    ensures n < 10 <==> |Decimal(n)| == 1
  {
    if n >= 10 {
      DecimalIsShort(n / 10);
    }
  }

  lemma {:induction false} SplitSkips(part: string, s: string, separator: char)
    requires Lacks(part, separator)
    ensures Split(part + [separator] + s, separator) == [part] + Split(s, separator)
    ensures Split(part, separator) == [part]
  {
    var all := part + [separator] + s;
    if part == "" {
      assert all[1..] == s;
    } else {
      assert part == [part[0]] + part[1..];
      assert Lacks(part[1..], separator);
      SplitSkips(part[1..], s, separator);
      assert all[1..] == part[1..] + [separator] + s;
    }
  }

  /** Splitting undoes joining, for parts free of the separator. */
  lemma {:induction false} SplitJoin(parts: seq<string>, separator: char)
    requires parts != [] && forall i :: 0 <= i < |parts| ==> Lacks(parts[i], separator)
    ensures Split(Join(parts, separator), separator) == parts
  {
    if |parts| == 1 {
      SplitSkips(parts[0], "", separator);
    } else {
      SplitSkips(parts[0], Join(parts[1..], separator), separator);
      SplitJoin(parts[1..], separator);
    }
  }

  lemma {:induction false} DecimalsShape(ns: seq<nat>)
    ensures |Decimals(ns)| == |ns| && Numbers(Decimals(ns)) == ns
    ensures forall i :: 0 <= i < |ns| ==>
              Lacks(Decimals(ns)[i], '-') && Lacks(Decimals(ns)[i], ',') && Decimals(ns)[i] != ""
  {
    if ns != [] {
      NumberOfDecimal(ns[0]);
      DecimalsShape(ns[1..]);
      var ds := Decimals(ns);
      assert ds[0] == Decimal(ns[0]) && ds[1..] == Decimals(ns[1..]);
      forall i | 0 <= i < |ns| ensures Lacks(ds[i], '-') && Lacks(ds[i], ',') && ds[i] != "" {
        assert i > 0 ==> ds[i] == ds[1..][i - 1];
      }
    }
  }

  lemma {:induction false} JoinLacks(parts: seq<string>, separator: char, c: char)
    requires c != separator && forall i :: 0 <= i < |parts| ==> Lacks(parts[i], c)
    ensures Lacks(Join(parts, separator), c)
  {
    if |parts| > 1 {
      JoinLacks(parts[1..], separator, c);
    }
  }

  lemma ListShape(ns: seq<nat>)
    ensures Lacks(List(ns), ',') && ReadList(List(ns)) == ns
  {
    DecimalsShape(ns);
    JoinLacks(Decimals(ns), '-', ',');
    if ns != [] {
      SplitJoin(Decimals(ns), '-');
      assert Split("", '-') == [""] && Decimals(ns)[0] != "";
    }
  }

  /** The parts of a JA3 string, read back by splitting at ',' and '-'. */
  lemma ReadBack(f: Fields)
    ensures var parts := Split(PreHash(f), ',');
      && |parts| == 5
      && Number(parts[0]) == f.version
      && ReadList(parts[1]) == f.ciphers && ReadList(parts[2]) == f.extensions
      && ReadList(parts[3]) == f.curves && ReadList(parts[4]) == f.formats
  {
    NumberOfDecimal(f.version);
    ListShape(f.ciphers);
    ListShape(f.extensions);
    ListShape(f.curves);
    ListShape(f.formats);
    SplitJoin([Decimal(f.version), List(f.ciphers), List(f.extensions), List(f.curves), List(f.formats)], ',');
  }

  /** The string is unambiguous: equal exactly when all five parts are, empty lists included. */
  lemma Unambiguous(f: Fields, g: Fields)
    ensures PreHash(f) == PreHash(g) <==> f == g
  {
    ReadBack(f);
    ReadBack(g);
  }
}
