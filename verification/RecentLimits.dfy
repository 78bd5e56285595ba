/** The `recent` limit: a count of assets or a number of days, as text and as a
    configuration value. */
module RecentLimits {
  import opened Wrappers
  import opened Machine
  import opened Arithmetic

  // ---- Decimal text ------------------------------------------------------

  function Digit(d: nat): char
    requires d < 10
  {
    '0' + d as char
  }

  function ShowNat(n: nat): (s: string)
    ensures s != "" && forall i :: 0 <= i < |s| ==> '0' <= s[i] <= '9'
  {
    if n < 10 then [Digit(n)] else ShowNat(n / 10) + [Digit(n % 10)]
  }

  /** The value of a text of digits, of any size. */
  function ReadNat(s: string): Option<nat> {
    if s == "" then None
    else
      var c := s[|s| - 1];
      if !('0' <= c <= '9') then None
      else if |s| == 1 then Some((c - '0') as nat)
      else
        var front := ReadNat(s[..|s| - 1]);
        if front.None? then None else Some(front.value * 10 + (c - '0') as nat)
  }

  /** Unsigned 32-bit parsing: an optional `+`, digits, no overflow. */
  function ParseU32(s: string): Option<nat> {
    var digits := if s != "" && s[0] == '+' then s[1..] else s;
    var n := ReadNat(digits);
    if n.Some? && n.value <= U32_MAX then n else None
  }

  lemma {:induction false} ShowReadsBack(n: nat)
    ensures ReadNat(ShowNat(n)) == Some(n)
  {
    if n >= 10 {
      ShowReadsBack(n / 10);
      var s := ShowNat(n);
      assert s[..|s| - 1] == ShowNat(n / 10);
    }
  }

  lemma ShowParses(n: nat)
    ensures ParseU32(ShowNat(n)) == if n <= U32_MAX then Some(n) else None
  {
    ShowReadsBack(n);
    assert ShowNat(n)[0] != '+';
  }

  // ---- The limit ---------------------------------------------------------

  datatype RecentLimit = Count(n: nat) | Days(n: nat)

  function ParseRecentLimit(s: string): Result<RecentLimit> {
    if s == "" then Err
    else
      var isDays := s[|s| - 1] == 'd';
      var n := ParseU32(if isDays then s[..|s| - 1] else s);
      if n.None? || n.value == 0 then Err
      else Ok(if isDays then Days(n.value) else Count(n.value))
  }

  function Display(limit: RecentLimit): string {
    match limit
    case Count(n) => ShowNat(n)
    case Days(n) => ShowNat(n) + "d"
  }

  /** A configuration value: a bare integer or a text. */
  datatype Toml = Int(n: nat) | Str(s: string)

  function Serialize(limit: RecentLimit): Toml {
    match limit
    case Count(n) => Int(n)
    case Days(n) => Str(ShowNat(n) + "d")
  }

  function Deserialize(raw: Toml): Result<RecentLimit> {
    match raw
    case Int(n) => if n == 0 || n > U32_MAX then Err else Ok(Count(n))
    case Str(s) => ParseRecentLimit(s)
  }

  /** Printing and parsing restores a limit exactly when it is a positive
      32-bit number; so does the configuration form. */
  lemma RecentRoundTrip(limit: RecentLimit)
    ensures ParseRecentLimit(Display(limit)) == Ok(limit) <==> 1 <= limit.n <= U32_MAX
    ensures Deserialize(Serialize(limit)) == Ok(limit) <==> 1 <= limit.n <= U32_MAX
  {
    ShowParses(limit.n);
    var s := ShowNat(limit.n);
    assert (s + "d")[..|s|] == s;
    assert s[|s| - 1] != 'd';
  }

  /** Only positive 32-bit limits are ever accepted. */
  lemma ParsedLimitInRange(s: string)
    requires ParseRecentLimit(s).Ok?
    ensures 1 <= ParseRecentLimit(s).value.n <= U32_MAX
  {}

  // ---- Decimal text, read from the front ----------------------------------

  ghost predicate Digits(s: string) {
    s != "" && forall i :: 0 <= i < |s| ==> '0' <= s[i] <= '9'
  }

  /** The first digit counts for a power of ten, the rest for themselves. */
  ghost function Value(s: string): nat
    requires Digits(s)
  {
    var first := (s[0] - '0') as nat;
    if |s| == 1 then first else first * Pow10(|s| - 1) + Value(s[1..])
  }

  lemma {:induction false} ValueAppend(s: string, c: char)
    requires Digits(s) && '0' <= c <= '9'
    ensures Digits(s + [c]) && Value(s + [c]) == 10 * Value(s) + (c - '0') as nat
  {
    var t := s + [c];
    if |s| == 1 {
      assert t[1..] == [c];
    } else {
      assert t[1..] == s[1..] + [c];
      ValueAppend(s[1..], c);
      Shifted((s[0] - '0') as nat, Pow10(|s| - 1));
    }
  }

  lemma Shifted(d: nat, p: nat)
    ensures d * (10 * p) == 10 * (d * p)
  {}

  /** Digits and nothing else are read, at their place value. */
  lemma {:induction false} ReadNatMeaning(s: string)
    ensures ReadNat(s).Some? <==> Digits(s)
    ensures Digits(s) ==> ReadNat(s) == Some(Value(s))
    decreases |s|
  {
    if s != "" && '0' <= s[|s| - 1] <= '9' && |s| > 1 {
      var n := |s| - 1;
      ReadNatMeaning(s[..n]);
      assert s == s[..n] + [s[n]];
      if Digits(s[..n]) { ValueAppend(s[..n], s[n]); }
      if Digits(s) { assert forall i :: 0 <= i < n ==> s[..n][i] == s[i]; }
    }
  }

  /** `s` is `n` in digits, perhaps behind a plus sign, and fits 32 bits. */
  ghost predicate Reads(s: string, n: nat) {
    var digits := if s != "" && s[0] == '+' then s[1..] else s;
    Digits(digits) && n == Value(digits) && 0 < n <= 0xFFFF_FFFF
  }

  /** A limit is a positive number, with a `d` behind it for days. */
  lemma ParseMeaning(s: string, limit: RecentLimit)
    ensures ParseRecentLimit(s) == Ok(limit) <==>
      match limit
      case Count(n) => Reads(s, n) && s[|s| - 1] != 'd'
      case Days(n) => s != "" && s[|s| - 1] == 'd' && Reads(s[..|s| - 1], n)
  {
    if s != "" {
      var isDays := s[|s| - 1] == 'd';
      var text := if isDays then s[..|s| - 1] else s;
      ReadNatMeaning(if text != "" && text[0] == '+' then text[1..] else text);
    }
  }

  /** In the configuration a count is a bare integer and days are text. */
  lemma ConfigurationForm(limit: RecentLimit)
    ensures match limit
            case Count(n) => Serialize(limit) == Int(n)
            case Days(n) => Serialize(limit) == Str(Display(limit))
  {}
}
