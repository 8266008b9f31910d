/**
 * The two computations of the generic helper that the bridge firmware
 * relies on: the device UUID, the hexlified unique id of the board cut or
 * cyclically extended to a requested length, and the free disk space of a
 * `statvfs` result. The unique id and the `statvfs` tuple are inputs.
 */
module GenericHelper {
  import opened Support

  /** One byte of the board's unique id. */
  type Byte = x: int | 0 <= x < 256

  // ------------------------------------------------------------- hexlify

  /** The lower-case hexadecimal digit of `n`. */
  function HexDigit(n: int): (c: char)
    requires 0 <= n < 16
    ensures IsHexDigit(c)
  {
    if n < 10 then ('0' as int + n) as char else ('a' as int + n - 10) as char
  }

  predicate IsHexDigit(c: char)
  {
    '0' <= c <= '9' || 'a' <= c <= 'f'
  }

  /** The value of a lower-case hexadecimal digit. */
  function HexValue(c: char): (n: int)
    requires IsHexDigit(c)
    ensures 0 <= n < 16
  {
    if c <= '9' then c as int - '0' as int else c as int - 'a' as int + 10
  }

  /** `ubinascii.hexlify`: two lower-case digits per byte, high nibble first. */
  function Hexlify(id: seq<Byte>): (r: string)
    ensures |r| == 2 * |id|
    ensures forall i :: 0 <= i < |r| ==> IsHexDigit(r[i])
  {
    if |id| == 0 then "" else [HexDigit(id[0] / 16), HexDigit(id[0] % 16)] + Hexlify(id[1..])
  }

  /** `ubinascii.unhexlify` of a string of lower-case digit pairs. */
  function Unhexlify(s: string): (r: seq<Byte>)
    requires |s| % 2 == 0
    requires forall i :: 0 <= i < |s| ==> IsHexDigit(s[i])
    ensures 2 * |r| == |s|
  {
    if |s| == 0 then [] else [HexValue(s[0]) * 16 + HexValue(s[1])] + Unhexlify(s[2..])
  }

  /** Hexlifying loses nothing: the id is recovered from its hex form. */
  lemma {:induction false} UnhexlifyHexlify(id: seq<Byte>)
    ensures Unhexlify(Hexlify(id)) == id
  {
    if |id| > 0 {
      var h := Hexlify(id);
      assert h[2..] == Hexlify(id[1..]);
      assert HexValue(HexDigit(id[0] / 16)) == id[0] / 16;
      assert HexValue(HexDigit(id[0] % 16)) == id[0] % 16;
      UnhexlifyHexlify(id[1..]);
    }
  }

  // ------------------------------------------------------ Python slicing

  function Abs(x: int): nat
  {
    if x < 0 then -x else x
  }

  /** Python's `x[:stop]`, with a negative stop counted from the end and clamped to the sequence. */
  function SliceTo(x: string, stop: int): (r: string)
    ensures 0 <= stop <= |x| ==> r == x[..stop]
    ensures stop < 0 && -stop <= |x| ==> r == x[..|x| + stop]
  {
    if stop >= 0 then x[..if stop <= |x| then stop else |x|]
    else x[..if |x| + stop >= 0 then |x| + stop else 0]
  }

  /** Python's `x[start:]`, with a negative start counted from the end and clamped to the sequence. */
  function SliceFrom(x: string, start: int): (r: string)
    ensures 0 <= start <= |x| ==> r == x[start..]
    ensures start < 0 && -start <= |x| ==> r == x[|x| + start..]
  {
    if start >= 0 then x[if start <= |x| then start else |x|..]
    else x[if |x| + start >= 0 then |x| + start else 0..]
  }

  // ---------------------------------------------------------- repetition

  /** Python's `s * n`: `n` copies of `s` one after the other. */
  function Repeat(s: string, n: nat): (r: string)
    ensures |r| == n * |s|
  {
    if n == 0 then "" else s + Repeat(s, n - 1)
  }

  /** A positive multiple of a positive number is at least that number. */
  lemma MulAtLeast(L: int, d: int)
    requires L > 0 && d >= 1
    ensures L * d >= L
  {
  }

  /** The remainder is determined by any quotient-remainder decomposition. */
  lemma ModUnique(y: int, L: int, q: int, r: int)
    requires L > 0 && 0 <= r < L && y == L * q + r
    ensures y % L == r
  {
    var q', r' := y / L, y % L;
    assert y == L * q' + r';
    assert L * (q - q') == r' - r;
    if q - q' >= 1 {
      MulAtLeast(L, q - q');
    } else if q' - q >= 1 {
      MulAtLeast(L, q' - q);
    }
  }

  /** Adding one whole copy does not move a position within a copy. */
  lemma AddCopy(x: int, L: int)
    requires L > 0
    ensures (x + L) % L == x % L
  {
    ModUnique(x + L, L, x / L + 1, x % L);
  }

  /** Position `i` of a repetition holds the character at `i` modulo the length of one copy. */
  lemma {:induction false} RepeatAt(s: string, n: nat, i: int)
    requires 0 <= i < n * |s|
    ensures Repeat(s, n)[i] == s[i % |s|]
  {
    if i >= |s| {
      RepeatAt(s, n - 1, i - |s|);
      AddCopy(i - |s|, |s|);
    } else {
      ModUnique(i, |s|, 0, i);
    }
  }

  /**
   * The number of copies `get_uuid` makes: `|length| // L` plus one when
   * there is a remainder.
   */
  function Amount(length: int, L: int): (n: nat)
    requires L > 0
  {
    Abs(length) / L + if Abs(length) % L > 0 then 1 else 0
  }

  /** The copy count is the ceiling of `|length| / L`: enough copies, and one fewer would not be. */
  lemma AmountIsCeiling(length: int, L: int)
    requires L > 0
    ensures Amount(length, L) * L >= Abs(length)
    ensures Amount(length, L) == 0 || (Amount(length, L) - 1) * L < Abs(length)
  {
    var q, m := Abs(length) / L, Abs(length) % L;
    assert Abs(length) == q * L + m;
    if m > 0 {
      assert Amount(length, L) * L == q * L + L;
    } else {
      assert Amount(length, L) * L == q * L;
    }
  }

  // ---------------------------------------------------------------- UUID

  /**
   * `get_uuid`: the hexlified unique id; with a length, its repetition
   * sliced to the first `length` characters (a non-negative length) or to
   * the last `|length|` ones (a negative length). `None` stands for the
   * division by zero raised when the id is empty and a length is given.
   */
  function GetUuid(id: seq<Byte>, length: Option<int>): (r: Option<string>)
    ensures length.None? ==> r == Some(Hexlify(id))
    ensures r.None? <==> length.Some? && |id| == 0
  {
    var uuid := Hexlify(id);
    match length
    case None => Some(uuid)
    case Some(n) =>
      if |uuid| == 0 then None
      else
        var amount := Amount(n, |uuid|);
        if n < 0 then Some(SliceFrom(Repeat(uuid, amount), n))
        else Some(SliceTo(Repeat(uuid, amount), n))
  }

  /** With a length and a non-empty id the UUID has exactly `|length|` characters. */
  lemma UuidLength(id: seq<Byte>, length: int)
    requires |id| > 0
    ensures GetUuid(id, Some(length)).Some?
    ensures |GetUuid(id, Some(length)).value| == Abs(length)
  {
    AmountIsCeiling(length, 2 * |id|);
  }

  /**
   * A non-negative length takes a prefix of the endlessly repeated uuid:
   * character `i` is character `i mod L` of the uuid.
   */
  lemma UuidPrefix(id: seq<Byte>, length: int, i: int)
    requires |id| > 0 && length >= 0 && 0 <= i < length
    ensures GetUuid(id, Some(length)).Some?
    ensures GetUuid(id, Some(length)).value[i] == Hexlify(id)[i % (2 * |id|)]
  {
    var uuid := Hexlify(id);
    var amount := Amount(length, |uuid|);
    AmountIsCeiling(length, |uuid|);
    RepeatAt(uuid, amount, i);
  }

  /**
   * A negative length takes a suffix that ends where a copy of the uuid
   * ends: character `i` is character `(i - |length|) mod L` of the uuid, so
   * the last character is always the uuid's last.
   */
  lemma UuidSuffix(id: seq<Byte>, length: int, i: int)
    requires |id| > 0 && length < 0 && 0 <= i < -length
    ensures GetUuid(id, Some(length)).Some?
    ensures GetUuid(id, Some(length)).value[i] == Hexlify(id)[(i + length) % (2 * |id|)]
  {
    var uuid := Hexlify(id);
    var L := |uuid|;
    var amount := Amount(length, L);
    AmountIsCeiling(length, L);
    var j := amount * L + length + i;
    assert GetUuid(id, Some(length)).value[i] == Repeat(uuid, amount)[j];
    RepeatAt(uuid, amount, j);
    ShiftByCopies(amount, L, length + i);
  }

  /** Adding whole copies does not move a position within a copy. */
  lemma {:induction false} ShiftByCopies(k: nat, L: int, j: int)
    requires L > 0
    ensures (k * L + j) % L == j % L
  {
    if k > 0 {
      ShiftByCopies(k - 1, L, j);
      assert k * L + j == ((k - 1) * L + j) + L;
      AddCopy((k - 1) * L + j, L);
    }
  }

  // ------------------------------------------------------------ disk free

  /** The units `df` formats; anything else is unrecognised. */
  datatype SizeUnit = ByteUnit | KiloByte | MegaByte

  /**
   * What `df` returns: a number of bytes (or -1), or a formatted text of
   * the free space in one of the known units. The text itself (decimal
   * rendering of a float) is not modelled; `bytes` is the amount it shows.
   */
  datatype FreeSpace = Number(n: int) | Formatted(unit: SizeUnit, bytes: int)

  /** The unit named by a case-insensitive spelling, if any. */
  function UnitOf(name: string): (u: Option<SizeUnit>)
    ensures u.Some? <==> Lower(name) in {"byte", "kb", "mb"}
  {
    var l := Lower(name);
    if l == "byte" then Some(ByteUnit)
    else if l == "kb" then Some(KiloByte)
    else if l == "mb" then Some(MegaByte)
    else None
  }

  /**
   * `df` over a `statvfs` result (block size at index 0, free blocks at
   * index 3): the free bytes without a unit, -1 for a unit it does not know.
   */
  function Df(info: seq<nat>, unit: Option<string>): (r: FreeSpace)
    requires |info| == 10
    ensures unit.None? ==> r == Number(info[0] * info[3])
    ensures unit.Some? && UnitOf(unit.value).None? ==> r == Number(-1)
    ensures r.Formatted? <==> unit.Some? && UnitOf(unit.value).Some?
    ensures r.Formatted? ==> r.bytes == info[0] * info[3] && r.unit == UnitOf(unit.value).value
  {
    var free := info[0] * info[3];
    match unit
    case None => Number(free)
    case Some(name) =>
      match UnitOf(name)
      case None => Number(-1)
      case Some(u) => Formatted(u, free)
  }

  /**
   * Since block counts are never negative, -1 is unambiguous: it is
   * returned exactly when a unit was given that is not byte, kB or MB.
   */
  lemma DfMinusOneIffUnknown(info: seq<nat>, unit: Option<string>)
    requires |info| == 10
    ensures Df(info, unit) == Number(-1) <==> unit.Some? && Lower(unit.value) !in {"byte", "kb", "mb"}
  {
  }

  /** Lower-casing twice is lower-casing once. */
  lemma LowerIdempotent(s: string)
    ensures Lower(Lower(s)) == Lower(s)
  {
    var l := Lower(s);
    assert forall i :: 0 <= i < |s| ==> LowerChar(l[i]) == l[i];
    assert Lower(l) == l;
  }

  /** The unit is matched without regard to case. */
  lemma DfIgnoresCase(info: seq<nat>, name: string)
    requires |info| == 10
    ensures Df(info, Some(name)) == Df(info, Some(Lower(name)))
  {
    LowerIdempotent(name);
  }
}
