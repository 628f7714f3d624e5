/** Repairing text whose UTF-8 bytes were once decoded as windows-1252. */
module Mojibake {
  import opened Text

  /** Unicode scalar values. */
  predicate IsScalar(r: int) {
    0 <= r < 0xD800 || 0xE000 <= r <= 0x10_FFFF
  }

  const REPLACEMENT: int := 0xFFFD

  // ---------- UTF-8, section 4 of RFC 3629 ----------

  predicate Tail(b: byte) {
    0x80 <= b <= 0xBF
  }

  /** The scalar value at the front of some bytes and the number of bytes it takes, if they begin with one. */
  function Lead(s: Bytes): (r: Option<(int, nat)>)
    ensures r.Some? ==> 1 <= r.value.1 <= 4 && r.value.1 <= |s|
  {
    if s == [] then None
    else if s[0] < 0x80 then Some((s[0], 1))
    else if 0xC2 <= s[0] <= 0xDF then Lead2(s)
    else if 0xE0 <= s[0] <= 0xEF then Lead3(s)
    else if 0xF0 <= s[0] <= 0xF4 then Lead4(s)
    else None
  }

  /** Six more bits, from a tail byte. */
  function Join(high: int, tail: int): int {
    high * 64 + (tail - 0x80)
  }

  /** The bits above the last six, and the tail byte of those. */
  function High(r: int): int {
    r / 64
  }

  function Low(r: int): (b: byte)
    ensures Tail(b) && Join(High(r), b) == r
  {
    0x80 + r % 64
  }

  lemma JoinSplits(high: int, tail: byte)
    requires Tail(tail)
    ensures High(Join(high, tail)) == high && Low(Join(high, tail)) == tail
  {
  }

  function Lead2(s: Bytes): (r: Option<(int, nat)>)
    requires s != []
    ensures r.Some? ==> r.value.1 == 2 <= |s|
  {
    if |s| >= 2 && Tail(s[1]) then Some((Join(s[0] as int - 0xC0, s[1]), 2)) else None
  }

  function Lead3(s: Bytes): (r: Option<(int, nat)>)
    requires s != []
    ensures r.Some? ==> r.value.1 == 3 <= |s|
  {
    if |s| >= 3 && Tail(s[1]) && Tail(s[2]) && (s[0] == 0xE0 ==> s[1] >= 0xA0) && (s[0] == 0xED ==> s[1] <= 0x9F)
    then Some((Join(Join(s[0] as int - 0xE0, s[1]), s[2]), 3))
    else None
  }

  function Lead4(s: Bytes): (r: Option<(int, nat)>)
    requires s != []
    ensures r.Some? ==> r.value.1 == 4 <= |s|
  {
    if |s| >= 4 && Tail(s[1]) && Tail(s[2]) && Tail(s[3]) && (s[0] == 0xF0 ==> s[1] >= 0x90)
       && (s[0] == 0xF4 ==> s[1] <= 0x8F)
    then Some((Join(Join(Join(s[0] as int - 0xF0, s[1]), s[2]), s[3]), 4))
    else None
  }

  function Encode(r: int): (s: Bytes)
    requires IsScalar(r)
    ensures |s| >= 1 && (r >= 0x80 ==> |s| >= 2)
  {
    if r < 0x80 then [r]
    else if r < 0x800 then [0xC0 + High(r), Low(r)]
    else if r < 0x1_0000 then [0xE0 + High(High(r)), Low(High(r)), Low(r)]
    else [0xF0 + High(High(High(r))), Low(High(High(r))), Low(High(r)), Low(r)]
  }

  lemma EncodedIsDecoded(r: int, rest: Bytes)
    requires IsScalar(r)
    ensures Lead(Encode(r) + rest) == Some((r, |Encode(r)|))
  {
    HighBounds(r);
    hide High, Low, Join;
  }

  /** The ranges the leading bytes of each length are bound to. */
  lemma HighBounds(r: int)
    requires IsScalar(r)
    ensures 0x80 <= r < 0x800 ==> 2 <= High(r) < 0x20
    ensures 0x800 <= r < 0x1_0000 ==> 0 <= High(High(r)) < 0x10
    ensures 0x800 <= r < 0x1_0000 && High(High(r)) == 0 ==> Low(High(r)) >= 0xA0
    ensures 0x800 <= r < 0x1_0000 && High(High(r)) == 0xD ==> Low(High(r)) <= 0x9F
    ensures 0x1_0000 <= r ==> 0 <= High(High(High(r))) <= 4
    ensures 0x1_0000 <= r && High(High(High(r))) == 0 ==> Low(High(High(r))) >= 0x90
    ensures 0x1_0000 <= r && High(High(High(r))) == 4 ==> Low(High(High(r))) <= 0x8F
  {
  }

  lemma ThreeByteRange(a: int, b: byte, c: byte)
    requires 0 <= a < 0x10 && Tail(b) && Tail(c) && (a == 0 ==> b >= 0xA0) && (a == 0xD ==> b <= 0x9F)
    ensures 0x800 <= Join(Join(a, b), c) < 0x1_0000 && IsScalar(Join(Join(a, b), c))
  {
  }

  lemma FourByteRange(a: int, b: byte, c: byte, d: byte)
    requires 0 <= a <= 4 && Tail(b) && Tail(c) && Tail(d) && (a == 0 ==> b >= 0x90) && (a == 4 ==> b <= 0x8F)
    ensures 0x1_0000 <= Join(Join(Join(a, b), c), d) <= 0x10_FFFF
  {
  }

  /** Only the one encoding of a scalar value is accepted. */
  lemma DecodedIsEncoded(s: Bytes)
    requires Lead(s).Some?
    ensures var (r, k) := Lead(s).value; IsScalar(r) && Encode(r) == s[..k]
  {
    hide High, Low, Join, Encode;
    if s[0] < 0x80 {
      OneByte(s[0]);
      assert s[..1] == [s[0]];
    } else if s[0] < 0xE0 {
      TwoBytes(s[0], s[1]);
      assert s[..2] == [s[0], s[1]];
    } else if s[0] < 0xF0 {
      ThreeBytes(s[0], s[1], s[2]);
      assert s[..3] == [s[0], s[1], s[2]];
    } else {
      FourBytes(s[0], s[1], s[2], s[3]);
      assert s[..4] == [s[0], s[1], s[2], s[3]];
    }
  }

  lemma OneByte(a: byte)
    requires a < 0x80
    ensures Encode(a) == [a]
  {
  }

  lemma TwoBytes(a: byte, b: byte)
    requires 0xC2 <= a < 0xE0 && Tail(b)
    ensures var r := Join(a as int - 0xC0, b); IsScalar(r) && Encode(r) == [a, b]
  {
    JoinSplits(a as int - 0xC0, b);
  }

  lemma ThreeBytes(a: byte, b: byte, c: byte)
    requires 0xE0 <= a < 0xF0 && Tail(b) && Tail(c) && (a == 0xE0 ==> b >= 0xA0) && (a == 0xED ==> b <= 0x9F)
    ensures var r := Join(Join(a as int - 0xE0, b), c); IsScalar(r) && Encode(r) == [a, b, c]
  {
    hide High, Low, Join;
    ThreeByteRange(a as int - 0xE0, b, c);
    JoinSplits(a as int - 0xE0, b);
    JoinSplits(Join(a as int - 0xE0, b), c);
  }

  lemma FourBytes(a: byte, b: byte, c: byte, d: byte)
    requires 0xF0 <= a <= 0xF4 && Tail(b) && Tail(c) && Tail(d) && (a == 0xF0 ==> b >= 0x90)
             && (a == 0xF4 ==> b <= 0x8F)
    ensures var r := Join(Join(Join(a as int - 0xF0, b), c), d); IsScalar(r) && Encode(r) == [a, b, c, d]
  {
    hide High, Low, Join;
    FourByteRange(a as int - 0xF0, b, c, d);
    JoinSplits(a as int - 0xF0, b);
    JoinSplits(Join(a as int - 0xF0, b), c);
    JoinSplits(Join(Join(a as int - 0xF0, b), c), d);
  }

  predicate Valid(s: Bytes) {
    s == [] || (Lead(s).Some? && Valid(s[Lead(s).value.1..]))
  }

  /** The code points a program reads from a string: a byte that starts none reads as the replacement character. */
  function Runes(s: Bytes): seq<int> {
    if s == [] then []
    else if Lead(s).Some? then [Lead(s).value.0] + Runes(s[Lead(s).value.1..])
    else [REPLACEMENT] + Runes(s[1..])
  }

  function EncodeAll(rs: seq<int>): Bytes
    requires forall i | 0 <= i < |rs| :: IsScalar(rs[i])
  {
    if rs == [] then [] else Encode(rs[0]) + EncodeAll(rs[1..])
  }

  /** Writing code points and reading them back is the identity, and what was written is valid. */
  lemma {:induction false} RunesOfEncoded(rs: seq<int>)
    requires forall i | 0 <= i < |rs| :: IsScalar(rs[i])
    ensures Runes(EncodeAll(rs)) == rs && Valid(EncodeAll(rs))
  {
    hide Lead, Encode;
    if rs != [] {
      var rest := EncodeAll(rs[1..]);
      RunesOfEncoded(rs[1..]);
      EncodedIsDecoded(rs[0], rest);
      assert (Encode(rs[0]) + rest)[|Encode(rs[0])|..] == rest;
      assert rs == [rs[0]] + rs[1..];
    }
  }

  // ---------- windows-1252, section 9 of the WHATWG Encoding Standard ----------

  /** The code points of bytes 0x80 to 0x9F. */
  const HIGH_CONTROLS: seq<int> := [
    0x20AC, 0x0081, 0x201A, 0x0192, 0x201E, 0x2026, 0x2020, 0x2021, 0x02C6, 0x2030, 0x0160, 0x2039, 0x0152, 0x008D,
    0x017D, 0x008F, 0x0090, 0x2018, 0x2019, 0x201C, 0x201D, 0x2022, 0x2013, 0x2014, 0x02DC, 0x2122, 0x0161, 0x203A,
    0x0153, 0x009D, 0x017E, 0x0178
  ]

  function CodePoint(b: byte): (r: int)
    ensures IsScalar(r) && (b >= 0x80 <==> r >= 0x80)
  {
    if 0x80 <= b < 0xA0 then HIGH_CONTROLS[b - 0x80] else b
  }

  /** The table the repair goes by. */
  const REVERSE: map<int, byte> := map[
    0x20AC := 0x80, 0x201A := 0x82, 0x0192 := 0x83, 0x201E := 0x84, 0x2026 := 0x85, 0x2020 := 0x86, 0x2021 := 0x87,
    0x02C6 := 0x88, 0x2030 := 0x89, 0x0160 := 0x8A, 0x2039 := 0x8B, 0x0152 := 0x8C, 0x017D := 0x8E,
    0x2018 := 0x91, 0x2019 := 0x92, 0x201C := 0x93, 0x201D := 0x94, 0x2022 := 0x95, 0x2013 := 0x96, 0x2014 := 0x97,
    0x02DC := 0x98, 0x2122 := 0x99, 0x0161 := 0x9A, 0x203A := 0x9B, 0x0153 := 0x9C, 0x017E := 0x9E, 0x0178 := 0x9F
  ]

  /** The byte a code point stood for. */
  function ByteFor(r: int): Option<byte>
    requires r >= 0
  {
    if r <= 0xFF then Some(r) else if r in REVERSE then Some(REVERSE[r]) else None
  }

  /** Every byte comes back from its code point. */
  lemma ByteComesBack(b: byte)
    ensures ByteFor(CodePoint(b)) == Some(b)
  {
  }

  /** No two entries of the table share a byte, and every entry is what windows-1252 decodes its byte to. */
  lemma ReverseIsInjective(r: int, r': int)
    requires r in REVERSE && r' in REVERSE && REVERSE[r] == REVERSE[r']
    ensures r == r' && CodePoint(REVERSE[r]) == r
  {
  }

  function Decode1252(bytes: Bytes): (rs: seq<int>)
    ensures |rs| == |bytes| && forall i | 0 <= i < |rs| :: rs[i] == CodePoint(bytes[i])
  {
    seq(|bytes|, i requires 0 <= i < |bytes| => CodePoint(bytes[i]))
  }

  /** The damage: bytes read as windows-1252 and written as UTF-8. */
  function Damage(bytes: Bytes): Bytes {
    EncodeAll(Decode1252(bytes))
  }

  // ---------- the repair ----------

  predicate Triggers(r: int) {
    r == 0xC3 || r == 0xC2 || r == 0xC4 || r == 0xC5
  }

  predicate Suspicious(rs: seq<int>) {
    exists i | 0 <= i < |rs| :: Triggers(rs[i])
  }

  function BytesFor(rs: seq<int>): Option<Bytes>
    requires forall i | 0 <= i < |rs| :: rs[i] >= 0
  {
    if rs == [] then Some([])
    else
      var init, last := BytesFor(rs[..|rs| - 1]), ByteFor(rs[|rs| - 1]);
      if init.None? || last.None? then None else Some(init.value + [last.value])
  }

  lemma {:induction false} RunesAreNatural(s: Bytes)
    ensures forall i | 0 <= i < |Runes(s)| :: Runes(s)[i] >= 0
  {
    if s != [] {
      if Lead(s).Some? {
        DecodedIsEncoded(s);
        RunesAreNatural(s[Lead(s).value.1..]);
      } else {
        RunesAreNatural(s[1..]);
      }
    }
  }

  function RuneBytes(s: Bytes): Option<Bytes> {
    RunesAreNatural(s);
    BytesFor(Runes(s))
  }

  /** What the repair makes of a string: the bytes its letters stood for, if it looks damaged and they are valid. */
  function Repaired(s: Bytes): Bytes {
    if Suspicious(Runes(s)) && RuneBytes(s).Some? && Valid(RuneBytes(s).value) then RuneBytes(s).value else s
  }

  lemma {:induction false} BytesComeBack(bytes: Bytes)
    ensures BytesFor(Decode1252(bytes)) == Some(bytes)
  {
    hide CodePoint, ByteFor;
    if bytes != [] {
      var init, last := bytes[..|bytes| - 1], bytes[|bytes| - 1];
      BytesComeBack(init);
      assert Decode1252(bytes)[..|bytes| - 1] == Decode1252(init);
      ByteComesBack(last);
      assert bytes == init + [last];
    }
  }

  /** Bytes outside ASCII grow when they are damaged. */
  lemma {:induction false} DamageGrows(bytes: Bytes)
    ensures |Damage(bytes)| >= |bytes|
    ensures (exists i | 0 <= i < |bytes| :: bytes[i] >= 0x80) ==> |Damage(bytes)| > |bytes|
    ensures (forall i | 0 <= i < |bytes| :: bytes[i] < 0x80) ==> Damage(bytes) == bytes
  {
    if bytes != [] {
      DamageGrows(bytes[1..]);
      assert Decode1252(bytes)[1..] == Decode1252(bytes[1..]);
      assert Damage(bytes) == Encode(CodePoint(bytes[0])) + Damage(bytes[1..]);
      assert forall i | 1 <= i < |bytes| :: bytes[i] == bytes[1..][i - 1];
    }
  }

  lemma TriggerBytes(bytes: Bytes)
    ensures Suspicious(Decode1252(bytes)) <==> exists i | 0 <= i < |bytes| :: 0xC2 <= bytes[i] <= 0xC5
  {
    assert forall b: byte :: Triggers(CodePoint(b)) <==> 0xC2 <= b <= 0xC5;
    forall i | 0 <= i < |bytes|
      ensures Triggers(Decode1252(bytes)[i]) <==> 0xC2 <= bytes[i] <= 0xC5
    {
    }
  }

  /**
   * The repair undoes the damage to valid UTF-8 exactly when a byte C2, C3, C4 or C5 occurs in it, or when there was
   * nothing to damage.
   */
  lemma RepairUndoesDamage(original: Bytes)
    requires Valid(original)
    ensures Repaired(Damage(original)) == original <==>
              (exists i | 0 <= i < |original| :: 0xC2 <= original[i] <= 0xC5)
              || (forall i | 0 <= i < |original| :: original[i] < 0x80)
  {
    hide Valid, CodePoint, Runes, BytesFor, EncodeAll, Suspicious;
    var rs := Decode1252(original);
    RunesOfEncoded(rs);
    BytesComeBack(original);
    TriggerBytes(original);
    DamageGrows(original);
  }

  /** Every code point stands for the byte in its place. */
  predicate StandsFor(rs: seq<int>, bytes: Bytes)
    requires forall i | 0 <= i < |rs| :: rs[i] >= 0
  {
    |bytes| == |rs| && forall i | 0 <= i < |rs| :: ByteFor(rs[i]) == Some(bytes[i])
  }

  lemma {:induction false} BytesForIsExact(rs: seq<int>, bytes: Bytes)
    requires forall i | 0 <= i < |rs| :: rs[i] >= 0
    ensures BytesFor(rs) == Some(bytes) <==> StandsFor(rs, bytes)
  {
    hide ByteFor;
    if rs != [] {
      var n := |rs| - 1;
      if |bytes| == n + 1 {
        BytesForIsExact(rs[..n], bytes[..n]);
        assert bytes == bytes[..n] + [bytes[n]];
        assert forall i | 0 <= i < n :: rs[..n][i] == rs[i] && bytes[..n][i] == bytes[i];
      }
      if BytesFor(rs).Some? {
        var init := BytesFor(rs[..n]).value;
        BytesForIsExact(rs[..n], init);
        assert |BytesFor(rs).value| == n + 1;
      }
    }
  }

  /**
   * A text with one of the four letters becomes the bytes its letters stand for, if every letter stands for one and
   * they are valid; any other text is kept.
   */
  lemma RepairIsExact(s: Bytes, fixed: Bytes)
    ensures (forall i | 0 <= i < |Runes(s)| :: Runes(s)[i] >= 0)
    ensures Suspicious(Runes(s)) && StandsFor(Runes(s), fixed) ==> Repaired(s) == if Valid(fixed) then fixed else s
    ensures Repaired(s) != s ==> Suspicious(Runes(s)) && StandsFor(Runes(s), Repaired(s)) && Valid(Repaired(s))
  {
    hide Runes, Suspicious, BytesFor, Valid;
    RunesAreNatural(s);
    BytesForIsExact(Runes(s), fixed);
    BytesForIsExact(Runes(s), Repaired(s));
  }

  /** Without one of the four letters nothing changes. */
  lemma PlainTextIsKept(s: Bytes)
    requires forall r | r in Runes(s) :: r != 0xC2 && r != 0xC3 && r != 0xC4 && r != 0xC5
    ensures Repaired(s) == s
  {
    assert forall i | 0 <= i < |Runes(s)| :: Runes(s)[i] in Runes(s);
  }

  /** Valid text stays valid. */
  lemma RepairKeepsValidity(s: Bytes)
    requires Valid(s)
    ensures Valid(Repaired(s))
  {
  }

  // ---------- the loop ----------

  method ContainsAny(s: Bytes) returns (found: bool)
    ensures found <==> Suspicious(Runes(s))
  {
    found := false;
    var i := 0;
    while i < |s|
      invariant i <= |s| && (Suspicious(Runes(s)) <==> found || Suspicious(Runes(s[i..])))
    {
      var lead := Lead(s[i..]);
      var r, size := REPLACEMENT, 1;
      if lead.Some? {
        r, size := lead.value.0, lead.value.1;
      }
      SuspicionSplits(s, i, r, size);
      if Triggers(r) {
        found := true;
      }
      i := i + size;
    }
  }

  lemma SuspicionSplits(s: Bytes, i: nat, r: int, size: nat)
    requires i < |s|
    requires (r, size) == if Lead(s[i..]).Some? then Lead(s[i..]).value else (REPLACEMENT, 1)
    ensures i + size <= |s| && Runes(s[i..]) == [r] + Runes(s[i + size..])
    ensures Suspicious(Runes(s[i..])) <==> Triggers(r) || Suspicious(Runes(s[i + size..]))
  {
    hide Lead;
    assert s[i..][size..] == s[i + size..];
    var rest := Runes(s[i + size..]);
    var all := [r] + rest;
    if k :| 0 <= k < |rest| && Triggers(rest[k]) {
      assert Triggers(all[k + 1]);
    }
    if k :| 0 <= k < |all| && Triggers(all[k]) {
      assert k > 0 ==> rest[k - 1] == all[k];
    }
    assert Triggers(r) ==> Triggers(all[0]);
  }

  method FixCSVMojibake(s: Bytes) returns (fixed: Bytes)
    ensures fixed == Repaired(s)
  {
    hide Lead, Valid, ByteFor, Runes, BytesFor, Suspicious, Triggers;
    NothingRead();
    if |s| == 0 {
      return s;
    }
    var suspicious := ContainsAny(s);
    if !suspicious {
      return s;
    }
    var b: Bytes := [];
    var i := 0;
    ghost var read: seq<int> := [];
    RunesAreNatural(s);
    assert s[0..] == s;
    while i < |s|
      invariant i <= |s| && Runes(s) == read + Runes(s[i..])
      invariant (forall k | 0 <= k < |read| :: read[k] >= 0) && BytesFor(read) == Some(b)
    {
      var lead := Lead(s[i..]);
      var r, size := REPLACEMENT, 1;
      if lead.Some? {
        r, size := lead.value.0, lead.value.1;
      }
      SuspicionSplits(s, i, r, size);
      Assoc(read, [r], Runes(s[i + size..]));
      assert Runes(s)[|read|] == r;
      var next := ByteFor(r);
      OneMoreRune(read, r);
      if next.None? {
        RunesAreNatural(s[i + size..]);
        NeverMore(read + [r], Runes(s[i + size..]));
        return s;
      }
      b, read := b + [next.value], read + [r];
      i := i + size;
    }
    assert s[|s|..] == [];
    assert read + [] == read;
    if !IsValid(b) {
      return s;
    }
    return b;
  }

  /** The library's validity test. */
  predicate IsValid(b: Bytes) {
    Valid(b)
  }

  lemma NothingRead()
    ensures Runes([]) == [] && BytesFor([]) == Some([]) && Repaired([]) == []
  {
  }

  lemma OneMoreRune(rs: seq<int>, r: int)
    requires r >= 0 && forall k | 0 <= k < |rs| :: rs[k] >= 0
    ensures BytesFor(rs + [r]) == if BytesFor(rs).None? || ByteFor(r).None? then None
                                  else Some(BytesFor(rs).value + [ByteFor(r).value])
  {
    assert (rs + [r])[..|rs|] == rs;
  }

  lemma {:induction false} NeverMore(rs: seq<int>, more: seq<int>)
    requires (forall k | 0 <= k < |rs| :: rs[k] >= 0) && (forall k | 0 <= k < |more| :: more[k] >= 0)
    requires BytesFor(rs).None?
    ensures BytesFor(rs + more).None?
  {
    if more == [] {
      assert rs + more == rs;
    } else {
      var init := more[..|more| - 1];
      NeverMore(rs, init);
      assert (rs + more)[..|rs + more| - 1] == rs + init;
    }
  }
}
