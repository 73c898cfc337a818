/** File names of a journal (core/storage/src/lib.rs). */
module JournalNames {
  import opened Prelude

  function DigitChar(d: nat): char
    requires d < 10
  {
    "0123456789"[d]
  }

  function DigitValue(c: char): Option<nat> {
    if '0' <= c <= '9' then Some((c as int) - ('0' as int)) else None
  }

  function Dec(n: nat): (s: string)
    ensures |s| > 0
  {
    if n < 10 then [DigitChar(n)] else Dec(n / 10) + [DigitChar(n % 10)]
  }

  /** Digits of any number, leading zeros included, as long as the value fits 64 bits. */
  function ParseDigits(s: string): Option<u64> {
    if s == "" then Some(0)
    else
      match (ParseDigits(s[..|s| - 1]), DigitValue(s[|s| - 1]))
      case (Some(v), Some(d)) => if 10 * v + d <= U64_MAX then Some(10 * v + d) else None
      case _ => None
  }

  /** The standard library's parser for unsigned numbers: one leading plus sign is allowed. */
  function ParseU64(s: string): Option<u64> {
    if s == "" then None
    else if s[0] == '+' then if |s| == 1 then None else ParseDigits(s[1..])
    else ParseDigits(s)
  }

  function FinalName(prefix: string, generation: u64): string {
    prefix + "-" + Dec(generation) + ".bin"
  }

  function TempName(prefix: string, generation: u64): string {
    prefix + "-" + Dec(generation) + ".tmp"
  }

  function ParseGeneration(prefix: string, name: string): Option<u64> {
    var start := |prefix| + 1;
    if |name| < start + 4 || name[..start] != prefix + "-" || name[|name| - 4..] != ".bin" then None
    else ParseU64(name[start..|name| - 4])
  }

  predicate NoDash(s: string) {
    '-' !in s
  }

  lemma DigitRoundTrip(d: nat)
    requires d < 10
    ensures DigitValue(DigitChar(d)) == Some(d) && DigitChar(d) != '-' && DigitChar(d) != '+'
  {
  }

  lemma ParseOneMore(s: string, v: u64, d: nat)
    requires d < 10 && ParseDigits(s) == Some(v) && 10 * v + d <= U64_MAX
    ensures ParseDigits(s + [DigitChar(d)]) == Some(10 * v + d)
  {
    DigitRoundTrip(d);
    assert (s + [DigitChar(d)])[..|s|] == s;
    hide DigitChar, DigitValue;
  }

  lemma {:induction false} DecParses(n: u64)
    ensures ParseDigits(Dec(n)) == Some(n) && NoDash(Dec(n)) && Dec(n)[0] != '+'
  {
    assert ParseDigits("") == Some(0);
    hide ParseDigits, DigitChar;
    DigitRoundTrip(n % 10);
    if n < 10 {
      ParseOneMore("", 0, n);
      assert "" + [DigitChar(n)] == [DigitChar(n)];
    } else {
      DecParses(n / 10);
      ParseOneMore(Dec(n / 10), n / 10, n % 10);
    }
  }

  lemma {:induction false} ParsedHasNoDash(s: string)
    requires ParseDigits(s).Some?
    ensures NoDash(s)
  {
    if s == "" {
    } else {
      ParsedHasNoDash(s[..|s| - 1]);
      assert s == s[..|s| - 1] + [s[|s| - 1]];
    }
  }

  /** Parsing a final name gives back the generation it was made from. */
  lemma ParseInvertsFinalName(prefix: string, generation: u64)
    ensures ParseGeneration(prefix, FinalName(prefix, generation)) == Some(generation)
  {
    DecParses(generation);
    var name, start := FinalName(prefix, generation), |prefix| + 1;
    assert name[..start] == prefix + "-";
    assert name[|name| - 4..] == ".bin";
    assert name[start..|name| - 4] == Dec(generation);
  }

  lemma FinalNamesDiffer(prefix: string, g: u64, h: u64)
    ensures FinalName(prefix, g) == FinalName(prefix, h) <==> g == h
    ensures TempName(prefix, g) == TempName(prefix, h) <==> g == h
    ensures FinalName(prefix, g) != TempName(prefix, h)
  {
    ParseInvertsFinalName(prefix, g);
    ParseInvertsFinalName(prefix, h);
    if TempName(prefix, g) == TempName(prefix, h) {
      var t := TempName(prefix, g);
      assert t[..|t| - 4] == prefix + "-" + Dec(g) && t[..|t| - 4] == prefix + "-" + Dec(h);
      assert FinalName(prefix, g) == FinalName(prefix, h);
    }
    var f, t := FinalName(prefix, g), TempName(prefix, h);
    assert f[|f| - 1] == 'n' && t[|t| - 1] == 'p';
  }

  lemma TempNameNeverParses(prefix: string, other: string, generation: u64)
    ensures ParseGeneration(other, TempName(prefix, generation)) == None
  {
    var t := TempName(prefix, generation);
    if |t| >= 4 {
      assert t[|t| - 4..][3] == 'p' && ".bin"[3] == 'n';
    }
  }

  lemma DashTooFar(p: string, a: string, q: string, b: string)
    requires NoDash(b) && |p| > |q|
    ensures p + "-" + a != q + "-" + b
  {
    var s, t := p + "-" + a, q + "-" + b;
    if |s| == |t| {
      assert s[|p|] == '-';
      assert t[|p|] == b[|p| - |q| - 1] && b[|p| - |q| - 1] in b;
    }
  }

  /** A name splits at its last dash in only one way. */
  lemma LastDashIsUnique(p: string, a: string, q: string, b: string)
    requires NoDash(a) && NoDash(b)
    ensures p + "-" + a == q + "-" + b <==> p == q && a == b
  {
    if |p| > |q| {
      DashTooFar(p, a, q, b);
    } else if |p| < |q| {
      DashTooFar(q, b, p, a);
    } else {
      var s, t := p + "-" + a, q + "-" + b;
      assert s[..|p|] == p && t[..|p|] == q;
      assert s[|p| + 1..] == a && t[|p| + 1..] == b;
    }
  }

  /** A file that means nothing to the journal with this prefix. */
  ghost predicate Foreign(prefix: string, name: string) {
    ParseGeneration(prefix, name).None? && forall g: u64 :: name != TempName(prefix, g)
  }

  lemma FinalNameIsForeign(prefix: string, other: string, g: u64)
    requires prefix != other
    ensures Foreign(prefix, FinalName(other, g))
  {
    var name, start := FinalName(other, g), |prefix| + 1;
    DecParses(g);
    if ParseGeneration(prefix, name).Some? {
      var stem := name[start..|name| - 4];
      ParsedHasNoDash(if stem[0] == '+' then stem[1..] else stem);
      assert NoDash(stem) by {
        if stem[0] == '+' { assert stem == ['+'] + stem[1..]; }
      }
      assert name[..|name| - 4] == prefix + "-" + stem;
      assert name[..|name| - 4] == other + "-" + Dec(g);
      LastDashIsUnique(prefix, stem, other, Dec(g));
    }
    forall h: u64 ensures name != TempName(prefix, h) {
      var t := TempName(prefix, h);
      assert name[|name| - 1] == 'n' && t[|t| - 1] == 'p';
    }
  }

  lemma TempNameIsForeign(prefix: string, other: string, g: u64)
    requires prefix != other
    ensures Foreign(prefix, TempName(other, g))
  {
    TempNameNeverParses(other, prefix, g);
    var name := TempName(other, g);
    forall h: u64 ensures name != TempName(prefix, h) {
      var t := TempName(prefix, h);
      if name == t {
        DecParses(g);
        DecParses(h);
        assert name[..|name| - 4] == other + "-" + Dec(g) && t[..|t| - 4] == prefix + "-" + Dec(h);
        LastDashIsUnique(other, Dec(g), prefix, Dec(h));
      }
    }
  }

  /** Two journals with different prefixes in one directory never touch or read each other's files. */
  lemma JournalsDoNotInterfere(prefix: string, other: string, g: u64)
    requires prefix != other
    ensures Foreign(prefix, FinalName(other, g)) && Foreign(prefix, TempName(other, g))
  {
    FinalNameIsForeign(prefix, other, g);
    TempNameIsForeign(prefix, other, g);
  }
}
