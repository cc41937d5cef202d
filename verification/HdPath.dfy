/** Derivation paths of hierarchical deterministic wallets: parsing and printing the notation of BIP-32. */
module HdPath {
  import opened Types

  const HARDENED: nat := 0x8000_0000
  const MAX_UINT32: nat := 0xFFFF_FFFF

  datatype PathError = EmptyPath | Ambiguous | InvalidComponent | OutOfRange

  datatype Parsed<T> = Ok(value: T) | Err(error: PathError)

  const DEFAULT_ROOT: seq<nat> := [HARDENED + 44, HARDENED + 60, HARDENED, 0]

  // ---------- Text ----------

  predicate IsSpace(c: char)
  {
    c in {'\t', '\n', '\U{000B}', '\U{000C}', '\r', ' ', '\U{0085}', '\U{00A0}', '\U{1680}',
          '\U{2028}', '\U{2029}', '\U{202F}', '\U{205F}', '\U{3000}'} || '\U{2000}' <= c <= '\U{200A}'
  }

  function TrimLeft(s: string): string { if s != [] && IsSpace(s[0]) then TrimLeft(s[1..]) else s }

  function TrimRight(s: string): string
  {
    if s != [] && IsSpace(s[|s| - 1]) then TrimRight(s[..|s| - 1]) else s
  }

  function Trim(s: string): string { TrimRight(TrimLeft(s)) }

  /** The pieces between slashes. */
  function Split(s: string): (parts: seq<string>)
    ensures |parts| > 0
  {
    if s == [] then [[]] else
    if s[0] == '/' then [[]] + Split(s[1..]) else
      var parts := Split(s[1..]);
      [[s[0]] + parts[0]] + parts[1..]
  }

  // ---------- Numbers ----------

  /** The value of a digit in any base up to 36, or something larger. */
  function DigitOf(c: char): nat
  {
    if '0' <= c <= '9' then c as nat - '0' as nat else
    if 'a' <= c <= 'z' then c as nat - 'a' as nat + 10 else
    if 'A' <= c <= 'Z' then c as nat - 'A' as nat + 10 else 64
  }

  /** Digits of a base, with underscores only behind digits; a base prefix counts as one. */
  predicate IsNumeral(body: string, base: nat, prefixed: bool)
  {
    && body != [] && body[|body| - 1] != '_'
    && (forall i :: 0 <= i < |body| ==> body[i] == '_' || DigitOf(body[i]) < base)
    && (forall i :: 0 <= i < |body| && body[i] == '_' ==> if i == 0 then prefixed else body[i - 1] != '_')
  }

  function NumeralValue(body: string, base: nat): nat
  {
    if body == [] then 0 else
      var front, c := body[..|body| - 1], body[|body| - 1];
      if c == '_' then NumeralValue(front, base) else NumeralValue(front, base) * base + DigitOf(c)
  }

  function ReadBody(body: string, base: nat, prefixed: bool): Option<nat>
  {
    if IsNumeral(body, base, prefixed) then Some(NumeralValue(body, base)) else None
  }

  /** A number whose base is told by its prefix: binary, octal, hexadecimal or decimal. */
  function ReadNatural(s: string): Option<nat>
  {
    if |s| < 2 || s[0] != '0' then ReadBody(s, 10, false) else
    if s[1] == 'b' || s[1] == 'B' then ReadBody(s[2..], 2, true) else
    if s[1] == 'o' || s[1] == 'O' then ReadBody(s[2..], 8, true) else
    if s[1] == 'x' || s[1] == 'X' then ReadBody(s[2..], 16, true) else
    ReadBody(s[1..], 8, true)
  }

  function ReadInteger(s: string): Option<int>
  {
    if s != [] && (s[0] == '-' || s[0] == '+') then
      var n := ReadNatural(s[1..]);
      if n.None? then None else
        var v: int := n.value;
        Some(if s[0] == '-' then -v else v)
    else
      var n := ReadNatural(s);
      if n.None? then None else Some(n.value)
  }

  // ---------- Parsing ----------

  function ParseComponent(text: string): (r: Parsed<nat>)
    ensures r.Ok? ==> r.value <= MAX_UINT32
  {
    var component := Trim(text);
    var hardened := component != [] && component[|component| - 1] == '\'';
    var digits := if hardened then Trim(component[..|component| - 1]) else component;
    var value := if hardened then HARDENED else 0;
    var n := ReadInteger(digits);
    if n.None? then Err(InvalidComponent) else
    if n.value < 0 || n.value > MAX_UINT32 - value then Err(OutOfRange) else
    Ok(value + n.value)
  }

  /** The components up to the first that is wrong. */
  function ParseAll(parts: seq<string>): (r: Parsed<seq<nat>>)
  {
    if parts == [] then Ok([]) else
      var front := ParseAll(parts[..|parts| - 1]);
      if front.Err? then front else
        var last := ParseComponent(parts[|parts| - 1]);
        if last.Err? then Err(last.error) else Ok(front.value + [last.value])
  }

  function Parse(path: string): Parsed<seq<nat>>
  {
    var parts := Split(path);
    if Trim(parts[0]) == "" then Err(Ambiguous) else
    if Trim(parts[0]) == "m" then (if |parts| == 1 then Err(EmptyPath) else ParseAll(parts[1..])) else
      var rest := ParseAll(parts);
      if rest.Err? then rest else Ok(DEFAULT_ROOT + rest.value)
  }

  method ParseDerivationPath(path: string) returns (r: Parsed<seq<nat>>)
    ensures r == Parse(path)
  {
    hide Trim, ParseComponent, Split;
    var result: seq<nat> := [];
    var components := Split(path);
    if Trim(components[0]) == "" { return Err(Ambiguous); }
    if Trim(components[0]) == "m" {
      components := components[1..];
    } else {
      result := DEFAULT_ROOT;
    }
    if |components| == 0 { return Err(EmptyPath); }
    var root := result;
    for i := 0 to |components|
      invariant ParseAll(components[..i]).Ok? && result == root + ParseAll(components[..i]).value
    {
      var value := ParseComponent(components[i]);
      assert components[..i + 1][..i] == components[..i];
      if value.Err? {
        WrongStays(components, i + 1);
        return Err(value.error);
      }
      result := result + [value.value];
    }
    assert components[..|components|] == components;
    assert root == [] ==> root + ParseAll(components).value == ParseAll(components).value;
    return Ok(result);
  }

  lemma {:induction false} WrongStays(parts: seq<string>, k: nat)
    requires k <= |parts| && ParseAll(parts[..k]).Err?
    ensures ParseAll(parts) == ParseAll(parts[..k])
    decreases |parts| - k
  {
    if k < |parts| {
      assert parts[..k + 1][..k] == parts[..k];
      WrongStays(parts, k + 1);
    } else {
      assert parts[..k] == parts;
    }
  }

  // ---------- Printing ----------

  function Digit(d: nat): char
    requires d < 10
  {
    "0123456789"[d]
  }

  function Decimal(n: nat): string
  {
    if n < 10 then [Digit(n)] else Decimal(n / 10) + [Digit(n % 10)]
  }

  function PrintComponent(c: nat): string
  {
    if c >= HARDENED then Decimal(c - HARDENED) + "'" else Decimal(c)
  }

  function Print(path: seq<nat>): string
  {
    if path == [] then "m" else Print(path[..|path| - 1]) + "/" + PrintComponent(path[|path| - 1])
  }

  method String(path: seq<nat>) returns (result: string)
    ensures result == Print(path)
  {
    result := "m";
    for i := 0 to |path|
      invariant result == Print(path[..i])
    {
      var component, hardened := path[i], false;
      if component >= HARDENED {
        component, hardened := component - HARDENED, true;
      }
      assert path[..i + 1][..i] == path[..i];
      result := result + "/" + Decimal(component);
      if hardened { result := result + "'"; }
    }
    assert path[..|path|] == path;
  }

  // ---------- There and back ----------

  /** All components fit in 32 bits. */
  ghost predicate InRange(path: seq<nat>) { forall i :: 0 <= i < |path| ==> path[i] <= MAX_UINT32 }

  /** Only decimal digits. */
  ghost predicate Digits(s: string) { s != [] && forall i :: 0 <= i < |s| ==> '0' <= s[i] <= '9' }

  lemma {:induction false} DecimalReads(n: nat)
    ensures Digits(Decimal(n)) && NumeralValue(Decimal(n), 10) == n
    ensures n > 0 ==> Decimal(n)[0] != '0'
    decreases n
  {
    if n >= 10 {
      DecimalReads(n / 10);
      var s := Decimal(n);
      assert s[..|s| - 1] == Decimal(n / 10);
    } else {
      assert Decimal(n)[..0] == [];
    }
  }

  lemma DecimalIsNumber(n: nat)
    ensures ReadInteger(Decimal(n)) == Some(n)
  {
    DecimalReads(n);
    var s := Decimal(n);
    assert IsNumeral(s, 10, false);
  }

  lemma TrimDigits(s: string)
    requires Digits(s)
    ensures Trim(s) == s && Trim(s + "'") == s + "'"
  {
  }

  /** Reading a printed component gives the component. */
  lemma ComponentRoundTrip(c: nat)
    requires c <= MAX_UINT32
    ensures ParseComponent(PrintComponent(c)) == Ok(c)
    ensures '/' !in PrintComponent(c)
  {
    hide Trim, Decimal, ReadInteger;
    var n := if c >= HARDENED then c - HARDENED else c;
    var s := Decimal(n);
    DecimalReads(n);
    DecimalIsNumber(n);
    TrimDigits(s);
    assert c >= HARDENED ==> (s + "'")[..|s|] == s;
  }

  lemma {:induction false} SplitPlain(s: string)
    requires '/' !in s
    ensures Split(s) == [s]
    decreases |s|
  {
    if s != [] {
      SplitPlain(s[1..]);
      assert [s[0]] + s[1..] == s;
    }
  }

  lemma {:induction false} SplitAtLast(s: string, t: string)
    requires '/' !in t
    ensures Split(s + "/" + t) == Split(s) + [t]
    decreases |s|
  {
    if s == [] {
      assert (s + "/" + t)[1..] == t;
      SplitPlain(t);
    } else {
      assert (s + "/" + t)[1..] == s[1..] + "/" + t;
      SplitAtLast(s[1..], t);
    }
  }

  /** The pieces of a printed path are its marker and its printed components. */
  lemma {:induction false} SplitPrinted(path: seq<nat>)
    requires InRange(path)
    ensures |Split(Print(path))| == |path| + 1 && Split(Print(path))[0] == "m"
    ensures ParseAll(Split(Print(path))[1..]) == Ok(path)
    decreases |path|
  {
    hide ParseComponent, PrintComponent, Split;
    if path == [] {
      SplitPlain("m");
    } else {
      var front, c := path[..|path| - 1], path[|path| - 1];
      SplitPrinted(front);
      ComponentRoundTrip(c);
      SplitAtLast(Print(front), PrintComponent(c));
      var parts := Split(Print(path))[1..];
      assert parts[..|parts| - 1] == Split(Print(front))[1..];
      assert path == front + [c];
    }
  }

  /** Parsing a printed path gives the path back, for every path but the empty one. */
  lemma RoundTrip(path: seq<nat>)
    requires InRange(path)
    ensures Parse(Print(path)) == Ok(path) <==> path != []
    ensures path == [] ==> Parse(Print(path)) == Err(EmptyPath)
  {
    SplitPrinted(path);
    assert Trim("m") == "m";
  }

  lemma {:induction false} ParsedRange(parts: seq<string>)
    ensures ParseAll(parts).Ok? ==> |ParseAll(parts).value| == |parts| && InRange(ParseAll(parts).value)
    decreases |parts|
  {
    if parts != [] {
      ParsedRange(parts[..|parts| - 1]);
    }
  }

  /** However a path was written, printing what was read and reading that again changes nothing. */
  lemma PrintNormalizes(text: string)
    requires Parse(text).Ok?
    ensures Parse(Print(Parse(text).value)) == Parse(text)
  {
    var parts := Split(text);
    ParsedRange(parts);
    ParsedRange(parts[1..]);
    RoundTrip(Parse(text).value);
  }
}
