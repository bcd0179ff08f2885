/**
 H.264 byte streams: the encoder's AVCC to Annex B converter (agent/encode_windows.go) and the viewer's
 keyframe scanner (client-app/ui.go), which reads what the converter wrote. Annex B start codes are
 those of section B.1.1 of ITU-T H.264.
 */
module AnnexB {
  import opened Wrappers
  import opened Bytes
  import opened Sequences

  type Nal = seq<byte>

  const START_CODE: seq<byte> := [0, 0, 0, 1]
  const LENGTH_LIMIT := 0x1_0000_0000

  /** Units behind 4-byte big-endian lengths. */
  function Avcc(ns: seq<Nal>): seq<byte> {
    FlatMap(WithLength, ns)
  }

  function WithLength(n: Nal): seq<byte> {
    BigEndian(|n|, 4) + n
  }

  /** Units behind 4-byte start codes. */
  function Stream(ns: seq<Nal>): seq<byte> {
    FlatMap(WithStartCode, ns)
  }

  function WithStartCode(n: Nal): seq<byte> {
    START_CODE + n
  }

  // ---- The converter ----

  function LengthAt(data: seq<byte>, i: nat): nat
    requires i + 4 <= |data|
  {
    var a: nat, b: nat, c: nat, d: nat := data[i], data[i + 1], data[i + 2], data[i + 3];
    a * 0x100_0000 + b * 0x1_0000 + c * 0x100 + d
  }

  /** What the loop makes of the data from i on; None when a length is zero or runs past the end. */
  function Converted(data: seq<byte>, i: nat): Option<seq<byte>>
    decreases |data| - i
  {
    if i + 4 > |data| then Some([])
    else if LengthAt(data, i) == 0 || i + 4 + LengthAt(data, i) > |data| then None
    else
      var j := i + 4 + LengthAt(data, i);
      match Converted(data, j)
      case None => None
      case Some(rest) => Some(START_CODE + data[i + 4..j] + rest)
  }

  predicate BeginsWithStartCode(data: seq<byte>)
    requires |data| >= 4
  {
    || (data[0] == 0 && data[1] == 0 && data[2] == 0 && data[3] == 1)
    || (data[0] == 0 && data[1] == 0 && data[2] == 1)
  }

  function Ensured(data: seq<byte>): seq<byte> {
    if |data| < 5 || BeginsWithStartCode(data) then data
    else match Converted(data, 0)
         case None => data
         case Some(out) => out
  }

  method EnsureAnnexB(data: seq<byte>) returns (result: seq<byte>)
    ensures result == Ensured(data)
  {
    if |data| < 5 {
      return data;
    }
    if BeginsWithStartCode(data) {
      return data;
    }
    var out := [];
    var i := 0;
    assert forall rest: seq<byte> :: out + rest == rest;
    while i + 4 <= |data|
      invariant i <= |data|
      invariant match Converted(data, i)
                case None => Converted(data, 0) == None
                case Some(rest) => Converted(data, 0) == Some(out + rest)
      invariant i > 0 ==> out != []
    {
      var nalLen := LengthAt(data, i);
      i := i + 4;
      if nalLen <= 0 || i + nalLen > |data| {
        return data;
      }
      ghost var before := out;
      out := out + START_CODE;
      out := out + data[i..i + nalLen];
      i := i + nalLen;
      assert forall rest :: before + (START_CODE + data[i - nalLen..i] + rest) == out + rest;
    }
    if |out| == 0 {
      return data;
    }
    assert out + [] == out;
    result := out;
  }

  // ---- What the converter returns ----

  predicate Convertible(ns: seq<Nal>) {
    forall n | n in ns :: 0 < |n| < LENGTH_LIMIT
  }

  lemma LengthRead(n: Nal, tail: seq<byte>)
    requires |n| < LENGTH_LIMIT
    ensures LengthAt(BigEndian(|n|, 4) + tail, 0) == |n|
  {
    FourBytes(|n|);
    FourDigits(|n|);
    var s := BigEndian(|n|, 4) + tail;
    assert s[0] == |n| / 0x100_0000 % 256 && s[1] == |n| / 0x1_0000 % 256;
    assert s[2] == |n| / 0x100 % 256 && s[3] == |n| % 256;
  }

  lemma FourDigits(k: nat)
    requires k < LENGTH_LIMIT
    ensures k / 0x100_0000 % 256 * 0x100_0000 + k / 0x1_0000 % 256 * 0x1_0000 + k / 0x100 % 256 * 0x100 + k % 256 == k
  {
    var a, b := k / 0x100, k / 0x1_0000;
    assert k == a * 0x100 + k % 256;
    assert a == b * 0x100 + a % 256;
    assert b == k / 0x100_0000 * 0x100 + b % 256;
    assert k / 0x100_0000 < 256;
  }

  lemma {:induction false} ConvertedShift(front: seq<byte>, data: seq<byte>, i: nat)
    requires i <= |data|
    ensures Converted(front + data, |front| + i) == Converted(data, i)
    decreases |data| - i
  {
    if i + 4 <= |data| {
      assert LengthAt(front + data, |front| + i) == LengthAt(data, i);
      var j := i + 4 + LengthAt(data, i);
      if LengthAt(data, i) > 0 && j <= |data| {
        ConvertedShift(front, data, j);
        assert (front + data)[|front| + i + 4..|front| + j] == data[i + 4..j];
      }
    }
  }

  lemma {:induction false} ConvertsUnits(ns: seq<Nal>, tail: seq<byte>)
    requires Convertible(ns) && |tail| < 4
    ensures Converted(Avcc(ns) + tail, 0) == Some(Stream(ns))
  {
    if ns != [] {
      var n, rest := ns[0], Avcc(ns[1..]) + tail;
      FirstUnit(ns, tail);
      ConvertsUnits(ns[1..], tail);
      ConvertsFirst(n, rest);
    } else {
      assert Avcc(ns) + tail == tail;
    }
  }

  lemma FirstUnit(ns: seq<Nal>, tail: seq<byte>)
    requires ns != []
    ensures Avcc(ns) + tail == BigEndian(|ns[0]|, 4) + (ns[0] + (Avcc(ns[1..]) + tail))
  {
    Regrouped(BigEndian(|ns[0]|, 4), ns[0], Avcc(ns[1..]), tail);
  }

  lemma Regrouped(a: seq<byte>, b: seq<byte>, c: seq<byte>, d: seq<byte>)
    ensures a + b + c + d == a + (b + (c + d))
  {
  }

  lemma ConvertsFirst(n: Nal, rest: seq<byte>)
    requires 0 < |n| < LENGTH_LIMIT && Converted(rest, 0).Some?
    ensures Converted(BigEndian(|n|, 4) + (n + rest), 0) == Some(START_CODE + n + Converted(rest, 0).value)
  {
    var data, front := BigEndian(|n|, 4) + (n + rest), BigEndian(|n|, 4) + n;
    LengthRead(n, n + rest);
    assert data == front + rest && |front| == 4 + |n|;
    assert Converted(data, 4 + |n|) == Converted(rest, 0) by {
      ConvertedShift(front, rest, 0);
    }
    assert data[4..4 + |n|] == n;
    ConvertedStep(data, |n|);
  }

  lemma ConvertedStep(data: seq<byte>, k: nat)
    requires 0 < k && 4 + k <= |data| && LengthAt(data, 0) == k && Converted(data, 4 + k).Some?
    ensures Converted(data, 0) == Some(START_CODE + data[4..4 + k] + Converted(data, 4 + k).value)
  {
  }

  lemma Parted(data: seq<byte>, i: nat, k: nat, j: nat)
    requires i <= k <= j <= |data|
    ensures data[i..] == data[i..k] + (data[k..j] + data[j..])
  {
  }

  lemma Prepended(n: Nal, more: seq<Nal>)
    ensures Avcc([n] + more) == BigEndian(|n|, 4) + n + Avcc(more)
    ensures Stream([n] + more) == START_CODE + n + Stream(more)
  {
    assert ([n] + more)[1..] == more;
  }

  /** The units that a successful conversion found, and the bytes left over behind them. */
  lemma {:induction false} ConvertedUnits(data: seq<byte>, i: nat) returns (ns: seq<Nal>, tail: seq<byte>)
    requires i <= |data| && Converted(data, i).Some?
    ensures Convertible(ns) && |tail| < 4 && data[i..] == Avcc(ns) + tail
    ensures Converted(data, i) == Some(Stream(ns))
    ensures ns == [] ==> i + 4 > |data|
    decreases |data| - i
  {
    if i + 4 > |data| {
      ns, tail := [], data[i..];
    } else {
      var j := i + 4 + LengthAt(data, i);
      var n, more := data[i + 4..j], [];
      more, tail := ConvertedUnits(data, j);
      ns := [n] + more;
      LengthWritten(data, i);
      Parted(data, i, i + 4, j);
      Prepended(n, more);
      Regrouped(BigEndian(|n|, 4), n, Avcc(more), tail);
    }
  }

  lemma LengthWritten(data: seq<byte>, i: nat)
    requires i + 4 <= |data|
    ensures BigEndian(LengthAt(data, i), 4) == data[i..i + 4] && LengthAt(data, i) < LENGTH_LIMIT
  {
    var k := LengthAt(data, i);
    var a: nat, b: nat, c: nat := data[i], data[i + 1], data[i + 2];
    assert k / 256 == a * 0x1_0000 + b * 0x100 + c;
    assert k / 256 / 256 == a * 0x100 + b;
    assert k / 256 / 256 / 256 == a;
    assert BigEndian(k / 256 / 256 / 256, 1) == [data[i]];
    assert BigEndian(k / 256 / 256, 2) == [data[i], data[i + 1]];
    assert BigEndian(k / 256, 3) == [data[i], data[i + 1], data[i + 2]];
  }

  /** `data` is a non-empty list of non-empty units behind 4-byte lengths, with up to three stray bytes. */
  ghost predicate IsAvcc(data: seq<byte>, ns: seq<Nal>, tail: seq<byte>) {
    ns != [] && Convertible(ns) && |tail| < 4 && data == Avcc(ns) + tail
  }

  /** On every input exactly one of two things happens: data that does not begin with a start code and
      parses as AVCC comes back as the same units behind start codes, without the stray bytes; anything
      else comes back unchanged. */
  lemma EnsuredExactly(data: seq<byte>)
    ensures |data| < 5 ==> Ensured(data) == data
    ensures |data| >= 5 ==>
              forall ns, tail | IsAvcc(data, ns, tail) && !BeginsWithStartCode(data) :: Ensured(data) == Stream(ns)
    ensures |data| >= 5 && (BeginsWithStartCode(data) || forall ns, tail :: !IsAvcc(data, ns, tail)) ==>
              Ensured(data) == data
  {
    if |data| < 5 { return; }
    forall ns, tail | IsAvcc(data, ns, tail) && !BeginsWithStartCode(data) ensures Ensured(data) == Stream(ns) {
      ConvertsUnits(ns, tail);
    }
    if Converted(data, 0).Some? {
      var ns, tail := ConvertedUnits(data, 0);
      assert data[0..] == data;
      assert IsAvcc(data, ns, tail);
    }
  }

  lemma {:induction false} StreamLength(ns: seq<Nal>)
    ensures |Stream(ns)| == |Avcc(ns)|
  {
    if ns != [] { StreamLength(ns[1..]); }
  }

  /** Converting again changes nothing, and a conversion loses at most three bytes, at the end. */
  lemma EnsuredIdempotent(data: seq<byte>)
    ensures Ensured(Ensured(data)) == Ensured(data)
    ensures |data| - 3 <= |Ensured(data)| <= |data|
  {
    if |data| >= 5 && !BeginsWithStartCode(data) && Converted(data, 0).Some? {
      var ns, tail := ConvertedUnits(data, 0);
      assert data[0..] == data;
      StreamLength(ns);
      assert Stream(ns) == START_CODE + ns[0] + Stream(ns[1..]);
      assert BeginsWithStartCode(Stream(ns));
    }
  }

  /** Lengths whose big-endian form begins with a start code. */
  predicate Ambiguous(length: nat) {
    length == 1 || 256 <= length < 512
  }

  lemma LengthAmbiguous(n: Nal, tail: seq<byte>)
    requires |n| < LENGTH_LIMIT
    ensures BeginsWithStartCode(BigEndian(|n|, 4) + tail) <==> Ambiguous(|n|)
  {
    LengthRead(n, tail);
  }

  lemma {:induction false} SameOnlyForOnes(ns: seq<Nal>)
    requires Convertible(ns)
    ensures Avcc(ns) == Stream(ns) <==> forall n | n in ns :: |n| == 1
  {
    if ns != [] {
      var n, rest := ns[0], ns[1..];
      SameOnlyForOnes(rest);
      CodeIsLengthOne(n);
      assert ns == [n] + rest;
      SameParts(BigEndian(|n|, 4), START_CODE, n, Avcc(rest), Stream(rest));
    }
  }

  lemma CodeIsLengthOne(n: Nal)
    requires 0 < |n| < LENGTH_LIMIT
    ensures BigEndian(|n|, 4) == START_CODE <==> |n| == 1
  {
    LengthRead(n, []);
    assert BigEndian(|n|, 4) + [] == BigEndian(|n|, 4);
    assert LengthAt(START_CODE, 0) == 1;
    LengthWritten(START_CODE, 0);
    assert START_CODE[0..4] == START_CODE;
  }

  lemma SameParts(a: seq<byte>, b: seq<byte>, n: Nal, x: seq<byte>, y: seq<byte>)
    requires |a| == |b|
    ensures a + n + x == b + n + y <==> a == b && x == y
  {
    var s, t := a + n + x, b + n + y;
    assert s[..|a|] == a && t[..|b|] == b;
    assert s[|a| + |n|..] == x && t[|b| + |n|..] == y;
  }

  /** What becomes of an AVCC list without stray bytes. */
  lemma ListEnsured(ns: seq<Nal>)
    requires Convertible(ns) && ns != []
    ensures Ensured(Avcc(ns)) == if Ambiguous(|ns[0]|) then Avcc(ns) else Stream(ns)
  {
    var n, rest := ns[0], ns[0] + Avcc(ns[1..]);
    assert n in ns;
    AvccFront(ns);
    LengthAmbiguous(n, rest);
    ConvertsUnits(ns, []);
    assert Avcc(ns) + [] == Avcc(ns);
  }

  /** An AVCC list is converted to the same units exactly when its first length cannot be mistaken for a
      start code, or every unit is a single byte (then both forms are the same bytes). */
  lemma ConvertsExactlyWhen(ns: seq<Nal>)
    requires Convertible(ns)
    ensures Ensured(Avcc(ns)) == Stream(ns) <==>
            (ns == [] || !Ambiguous(|ns[0]|) || forall n | n in ns :: |n| == 1)
  {
    if ns != [] {
      ListEnsured(ns);
      SameOnlyForOnes(ns);
    }
  }

  // ---- The keyframe scanner ----

  /** Slice types 5 (IDR), 7 (SPS) and 8 (PPS) mark a keyframe. */
  predicate KeyType(b: byte) {
    b % 32 == 5 || b % 32 == 7 || b % 32 == 8
  }

  /** The scan of a byte string from its front. */
  predicate Scan(s: seq<byte>) {
    if |s| <= 4 then false
    else if s[0] == 0 && s[1] == 0 && s[2] == 1 then KeyType(s[3]) || Scan(s[4..])
    else if s[0] == 0 && s[1] == 0 && s[2] == 0 && s[3] == 1 then KeyType(s[4]) || Scan(s[5..])
    else Scan(s[1..])
  }

  method IsH264Keyframe(data: seq<byte>) returns (key: bool)
    ensures key == Scan(data)
  {
    var i := 0;
    assert data[0..] == data;
    while i < |data| - 4
      invariant 0 <= i && (i <= |data|)
      invariant Scan(data) == Scan(data[i..])
    {
      ghost var s := data[i..];
      assert s[1..] == data[i + 1..] && s[4..] == data[i + 4..] && (|s| > 4 ==> s[5..] == data[i + 5..]);
      if data[i] == 0 && data[i + 1] == 0 {
        var ns := -1;
        if data[i + 2] == 1 {
          ns := i + 3;
          i := i + 4;
        } else if data[i + 2] == 0 && data[i + 3] == 1 {
          ns := i + 4;
          i := i + 5;
        } else {
          i := i + 1;
          continue;
        }
        if ns < |data| {
          var t := data[ns] % 32;
          if t == 5 || t == 7 || t == 8 {
            return true;
          }
        }
      } else {
        i := i + 1;
      }
    }
    key := false;
  }

  /** Section 7.4.1 of ITU-T H.264 keeps the pattern 00 00 01 out of every unit. */
  ghost predicate NoStartCode(n: Nal) {
    forall j | 0 <= j && j + 2 < |n| :: !(n[j] == 0 && n[j + 1] == 0 && n[j + 2] == 1)
  }

  predicate IsKeyUnit(n: Nal) {
    n != [] && KeyType(n[0])
  }

  /** The units the scanner sees: all key units, but not a last unit of one byte behind an empty one. */
  predicate Seen(ns: seq<Nal>, afterEmpty: bool) {
    ns != [] &&
    ((IsKeyUnit(ns[0]) && !(afterEmpty && |ns[0]| == 1 && |ns| == 1)) || Seen(ns[1..], ns[0] == []))
  }

  lemma StreamFront(ns: seq<Nal>)
    ensures ns == [] ==> Stream(ns) == []
    ensures ns != [] ==> |Stream(ns)| >= 4 && Stream(ns)[0] == Stream(ns)[1] == Stream(ns)[2] == 0 && Stream(ns)[3] == 1
  {
  }

  /** Inside a unit the scanner only advances byte by byte. */
  lemma {:induction false} ScanSkipsUnit(n: Nal, rest: seq<Nal>)
    requires NoStartCode(n)
    ensures Scan(n + Stream(rest)) == Scan(Stream(rest))
    decreases |n|
  {
    var tail := Stream(rest);
    StreamFront(rest);
    if n == [] {
      assert n + tail == tail;
    } else {
      var s := n + tail;
      assert s[1..] == n[1..] + tail;
      TailHasNoCode(n);
      ScanSkipsUnit(n[1..], rest);
      if |s| > 4 {
        NoCodeInside(n, rest);
      }
    }
  }

  lemma NoCodeInside(n: Nal, rest: seq<Nal>)
    requires n != [] && NoStartCode(n) && |n + Stream(rest)| > 4
    ensures var s := n + Stream(rest);
            !(s[0] == 0 && s[1] == 0 && s[2] == 1) && !(s[0] == 0 && s[1] == 0 && s[2] == 0 && s[3] == 1)
  {
    StreamFront(rest);
    if |n| >= 3 { assert !(n[0] == 0 && n[1] == 0 && n[2] == 1); }
    if |n| >= 4 { assert !(n[1] == 0 && n[2] == 0 && n[3] == 1); }
  }

  /** A start code with an empty unit behind it takes the first byte of what follows along. */
  lemma EmptyScanned(rest: seq<Nal>)
    ensures var s, tail := START_CODE + Stream(rest), Stream(rest);
            Scan(s) == Scan(s[1..]) == (rest != [] && Scan(tail[1..]))
  {
    var s, tail := START_CODE + Stream(rest), Stream(rest);
    StreamFront(rest);
    var t := s[1..];
    if rest != [] {
      assert s[5..] == tail[1..] && s[4] == 0;
      assert t[4..] == tail[1..] && t[3] == 0;
    }
  }

  lemma UnitScanned(n: Nal, rest: seq<Nal>)
    requires n != [] && NoStartCode(n)
    ensures var s, tail := START_CODE + n + Stream(rest), Stream(rest);
            && Scan(s) == (KeyType(n[0]) || Scan(tail))
            && Scan(s[1..]) == (|n + tail| > 1 && (KeyType(n[0]) || Scan(tail)))
  {
    var s, tail := START_CODE + n + Stream(rest), Stream(rest);
    var t := s[1..];
    TailHasNoCode(n);
    ScanSkipsUnit(n[1..], rest);
    assert s[5..] == n[1..] + tail && s[4] == n[0];
    if |t| > 4 {
      assert t[4..] == n[1..] + tail && t[3] == n[0];
    }
  }

  lemma TailHasNoCode(n: Nal)
    requires n != [] && NoStartCode(n)
    ensures NoStartCode(n[1..])
  {
    forall j | 0 <= j && j + 2 < |n[1..]| ensures !(n[1..][j] == 0 && n[1..][j + 1] == 0 && n[1..][j + 2] == 1) {
      assert !(n[j + 1] == 0 && n[j + 2] == 0 && n[j + 3] == 1);
    }
  }

  /** The scan of a stream, from a start code or from its second byte (where a jump over an empty unit
      lands), sees exactly the units of `Seen`. */
  lemma {:induction false} ScanFindsUnits(ns: seq<Nal>)
    requires forall n | n in ns :: NoStartCode(n)
    ensures Scan(Stream(ns)) == Seen(ns, false)
    ensures ns != [] ==> Scan(Stream(ns)[1..]) == Seen(ns, true)
  {
    if ns != [] {
      var n, rest := ns[0], ns[1..];
      assert n in ns;
      StreamFront(rest);
      ScanFindsUnits(rest);
      if n == [] {
        assert Stream(ns) == START_CODE + Stream(rest);
        EmptyScanned(rest);
      } else {
        UnitScanned(n, rest);
      }
    }
  }

  lemma {:induction false} SeenKeyUnits(ns: seq<Nal>)
    requires forall n | n in ns :: n != []
    ensures Seen(ns, false) == exists n :: n in ns && IsKeyUnit(n)
  {
    if ns != [] {
      assert ns == [ns[0]] + ns[1..] && ns[0] in ns;
      forall n | n in ns[1..] ensures n in ns && n != [] { }
      SeenKeyUnits(ns[1..]);
    }
  }

  /** On the Annex B form of any list of non-empty units, the scanner answers exactly whether one of them
      is an IDR slice or a parameter set. */
  lemma ScanExact(ns: seq<Nal>)
    requires forall n | n in ns :: n != [] && NoStartCode(n)
    ensures Scan(Stream(ns)) <==> exists n :: n in ns && IsKeyUnit(n)
  {
    ScanFindsUnits(ns);
    SeenKeyUnits(ns);
  }

  /** An empty unit hides a key unit of one byte at the very end. */
  lemma EmptyUnitHides()
    ensures !Scan(Stream([[], [5]])) && Scan(Stream([[5]])) && IsKeyUnit([5])
  {
    ScanFindsUnits([[], [5]]);
    ScanFindsUnits([[5]]);
    assert [[], [5]][1..] == [[5]] && [[5]][1..] == [];
    assert !Seen([[5]], true) && Seen([[5]], false);
  }

  /** On any input whatever, a positive answer points at a start code and a keyframe type behind it. */
  lemma {:induction false} ScanSound(s: seq<byte>) returns (j: nat)
    requires Scan(s)
    ensures j + 3 < |s| && s[j] == s[j + 1] == 0 && s[j + 2] == 1 && KeyType(s[j + 3])
  {
    if s[0] == 0 && s[1] == 0 && s[2] == 1 {
      if KeyType(s[3]) {
        j := 0;
      } else {
        j := ScanSound(s[4..]);
        j := j + 4;
      }
    } else if s[0] == 0 && s[1] == 0 && s[2] == 0 && s[3] == 1 {
      if KeyType(s[4]) {
        j := 1;
      } else {
        j := ScanSound(s[5..]);
        j := j + 5;
      }
    } else {
      j := ScanSound(s[1..]);
      j := j + 1;
    }
  }

  // ---- What the scanner misses ----

  /** Unit i is a single byte at the very end with an empty unit in front of it; `first` says whether an
      empty unit stands in front of the whole list. */
  predicate BehindEmpty(ns: seq<Nal>, i: nat, first: bool)
    requires i < |ns|
  {
    i == |ns| - 1 && |ns[i]| == 1 && if i == 0 then first else ns[i - 1] == []
  }

  lemma {:induction false} SeenExactly(ns: seq<Nal>, first: bool)
    ensures Seen(ns, first) <==> exists i: nat :: i < |ns| && IsKeyUnit(ns[i]) && !BehindEmpty(ns, i, first)
  {
    if ns != [] {
      var rest := ns[1..];
      SeenExactly(rest, ns[0] == []);
      forall i: nat | i < |rest|
        ensures rest[i] == ns[i + 1] && BehindEmpty(rest, i, ns[0] == []) == BehindEmpty(ns, i + 1, first)
      {
      }
      if Seen(rest, ns[0] == []) {
        var i: nat :| i < |rest| && IsKeyUnit(rest[i]) && !BehindEmpty(rest, i, ns[0] == []);
        assert IsKeyUnit(ns[i + 1]) && !BehindEmpty(ns, i + 1, first);
      }
      forall i: nat | i < |ns| && IsKeyUnit(ns[i]) && !BehindEmpty(ns, i, first) ensures Seen(ns, first) {
        if i > 0 {
          assert IsKeyUnit(rest[i - 1]) && !BehindEmpty(rest, i - 1, ns[0] == []);
        }
      }
    }
  }

  /** With empty units allowed, the scanner sees every key unit but a last one of one byte behind an empty
      one. */
  lemma ScanWithEmpty(ns: seq<Nal>)
    requires forall n | n in ns :: NoStartCode(n)
    ensures Scan(Stream(ns)) <==> exists i: nat :: i < |ns| && IsKeyUnit(ns[i]) && !BehindEmpty(ns, i, false)
  {
    ScanFindsUnits(ns);
    SeenExactly(ns, false);
  }

  // ---- Start codes of both lengths ----

  /** A unit behind a start code of four bytes, or of three. */
  datatype Prefixed = Prefixed(long: bool, nal: Nal)

  function WithPrefix(u: Prefixed): seq<byte> {
    (if u.long then START_CODE else [0, 0, 1]) + u.nal
  }

  function Mixed(us: seq<Prefixed>): seq<byte> {
    FlatMap(WithPrefix, us)
  }

  ghost predicate NoCodeWithin(us: seq<Prefixed>) {
    forall u | u in us :: NoStartCode(u.nal)
  }

  /** Where the scanner comes to a unit: on its prefix, on a zero byte in front of it, or behind the first
      byte of the prefix, which a jump over an empty unit has taken along. */
  datatype Landing = OnPrefix | BehindZero | InsidePrefix

  /** The last byte is zero and the scanner comes to it, so that it lengthens a start code of three bytes. */
  predicate EndsInZero(n: Nal) {
    |n| >= 2 && n[|n| - 1] == 0
  }

  /** The scanner looks at the unit's type. From inside a prefix of three bytes it never does; with three
      bytes of prefix in front of it and one byte of unit, at the very end, the loop stops before it. */
  predicate Examined(u: Prefixed, last: bool, l: Landing) {
    u.nal != [] &&
    match l
    case BehindZero => true
    case OnPrefix => u.long || !(last && |u.nal| == 1)
    case InsidePrefix => u.long && !(last && |u.nal| == 1)
  }

  function NextLanding(u: Prefixed, l: Landing): Landing {
    if l.InsidePrefix? && !u.long then (if u.nal != [] && u.nal[|u.nal| - 1] == 0 then BehindZero else OnPrefix)
    else if u.nal == [] then InsidePrefix
    else if EndsInZero(u.nal) then BehindZero else OnPrefix
  }

  function LandingAt(us: seq<Prefixed>, i: nat, l: Landing): Landing
    requires i < |us|
  {
    if i == 0 then l else LandingAt(us[1..], i - 1, NextLanding(us[0], l))
  }

  predicate MixedSeen(us: seq<Prefixed>, l: Landing) {
    us != [] &&
    ((IsKeyUnit(us[0].nal) && Examined(us[0], |us| == 1, l)) || MixedSeen(us[1..], NextLanding(us[0], l)))
  }

  /** Nothing, or a start code of either length. */
  predicate BeginsUnit(t: seq<byte>) {
    t == [] || (|t| >= 3 && t[0] == t[1] == 0 && (t[2] == 1 || (|t| >= 4 && t[2] == 0 && t[3] == 1)))
  }

  lemma MixedFront(us: seq<Prefixed>)
    ensures BeginsUnit(Mixed(us)) && (Mixed(us) == [] <==> us == [])
  {
  }

  lemma PassesByte(n: Nal, t: seq<byte>)
    requires |n| > 1 && NoStartCode(n) && BeginsUnit(t)
    ensures Scan(n + t) == Scan(n[1..] + t)
  {
    var s := n + t;
    assert s[1..] == n[1..] + t;
    if |n| >= 3 { assert !(n[0] == 0 && n[1] == 0 && n[2] == 1); }
    if |n| >= 4 { assert !(n[1] == 0 && n[2] == 0 && n[3] == 1); }
    if |s| > 4 {
      assert !(s[0] == 0 && s[1] == 0 && s[2] == 1);
      assert !(s[0] == 0 && s[1] == 0 && s[2] == 0 && s[3] == 1);
    }
  }

  lemma PassesLastByte(b: byte, t: seq<byte>)
    requires b != 0 && BeginsUnit(t)
    ensures Scan([b] + t) == Scan(t)
  {
    assert ([b] + t)[1..] == t;
  }

  /** The scanner passes a rest of a unit byte by byte, up to a last zero byte. */
  lemma {:induction false} MixedSkip(n: Nal, t: seq<byte>)
    requires NoStartCode(n) && BeginsUnit(t)
    ensures Scan(n + t) == if n != [] && n[|n| - 1] == 0 then Scan([0] + t) else Scan(t)
    decreases |n|
  {
    if n == [] {
      assert n + t == t;
    } else if |n| == 1 {
      assert n == [n[0]];
      if n[0] != 0 { PassesLastByte(n[0], t); }
    } else {
      PassesByte(n, t);
      TailHasNoCode(n);
      MixedSkip(n[1..], t);
    }
  }

  /** The bytes the scanner has before it, given where it comes to the unit at the front of s. */
  function Before(s: seq<byte>, l: Landing): seq<byte> {
    match l
    case OnPrefix => s
    case BehindZero => [0] + s
    case InsidePrefix => if s == [] then [] else s[1..]
  }

  lemma LongUnitPassed(u: Prefixed, t: seq<byte>, l: Landing)
    requires u.nal != [] && u.long
    ensures Scan(Before(WithPrefix(u) + t, l)) ==
            (Examined(u, t == [], l) && (KeyType(u.nal[0]) || Scan(u.nal[1..] + t)))
  {
    var s, n := WithPrefix(u) + t, u.nal;
    assert s == START_CODE + n + t && s[4] == n[0] && s[5..] == n[1..] + t;
    match l
    case OnPrefix =>
    case BehindZero =>
      var z := [0] + s;
      assert z[1..] == s;
    case InsidePrefix =>
      var c := s[1..];
      assert c[0] == 0 && c[1] == 0 && c[2] == 1 && c[3] == n[0] && c[4..] == n[1..] + t;
  }

  lemma ShortUnitPassed(u: Prefixed, t: seq<byte>, l: Landing)
    requires u.nal != [] && !u.long && !l.InsidePrefix?
    ensures Scan(Before(WithPrefix(u) + t, l)) ==
            (Examined(u, t == [], l) && (KeyType(u.nal[0]) || Scan(u.nal[1..] + t)))
  {
    var s, n := WithPrefix(u) + t, u.nal;
    assert s == [0, 0, 1] + n + t && s[3] == n[0] && s[4..] == n[1..] + t;
    if l.BehindZero? {
      var z := [0] + s;
      assert z[4] == s[3] && z[5..] == s[4..];
    }
  }

  /** A unit whose type can be looked at. */
  lemma UnitPassed(u: Prefixed, t: seq<byte>, l: Landing)
    requires u.nal != [] && (u.long || !l.InsidePrefix?)
    ensures Scan(Before(WithPrefix(u) + t, l)) ==
            (Examined(u, t == [], l) && (KeyType(u.nal[0]) || Scan(u.nal[1..] + t)))
  {
    if u.long { LongUnitPassed(u, t, l); } else { ShortUnitPassed(u, t, l); }
  }

  /** An empty unit makes the scanner take the first byte of what follows along. */
  lemma EmptyPassed(u: Prefixed, t: seq<byte>, l: Landing)
    requires u.nal == [] && (u.long || !l.InsidePrefix?) && BeginsUnit(t)
    ensures Scan(Before(WithPrefix(u) + t, l)) == Scan(Before(t, InsidePrefix))
  {
    var s := WithPrefix(u) + t;
    var z, c := [0] + s, s[1..];
    if u.long {
      assert z[1..] == s;
      if t != [] { assert s[4] == 0 && s[5..] == t[1..] && c[3] == 0 && c[4..] == t[1..]; }
    } else {
      if t != [] { assert s[3] == 0 && s[4..] == t[1..] && z[4] == 0 && z[5..] == t[1..]; }
    }
  }

  /** From inside a prefix of three bytes the scanner goes on into the unit without looking at its type. */
  lemma PrefixMissed(u: Prefixed, t: seq<byte>)
    requires !u.long
    ensures Scan(Before(WithPrefix(u) + t, InsidePrefix)) == Scan(u.nal + t)
  {
    var c := (WithPrefix(u) + t)[1..];
    assert c == [0, 1] + (u.nal + t) && c[1..] == [1] + (u.nal + t) && c[1..][1..] == u.nal + t;
  }

  lemma {:induction false} MixedFound(us: seq<Prefixed>, l: Landing)
    requires NoCodeWithin(us)
    ensures Scan(Before(Mixed(us), l)) == MixedSeen(us, l)
  {
    if us != [] {
      var u, rest := us[0], us[1..];
      var t := Mixed(rest);
      assert u in us;
      forall v | v in rest ensures v in us { }
      MixedFound(rest, NextLanding(u, l));
      MixedFront(rest);
      if l.InsidePrefix? && !u.long {
        PrefixMissed(u, t);
        MixedSkip(u.nal, t);
      } else if u.nal == [] {
        EmptyPassed(u, t, l);
      } else {
        UnitPassed(u, t, l);
        TailHasNoCode(u.nal);
        MixedSkip(u.nal[1..], t);
      }
    }
  }

  lemma {:induction false} MixedSeenExactly(us: seq<Prefixed>, l: Landing)
    ensures MixedSeen(us, l) <==>
            exists i: nat :: i < |us| && IsKeyUnit(us[i].nal) && Examined(us[i], i == |us| - 1, LandingAt(us, i, l))
  {
    if us != [] {
      var rest, next := us[1..], NextLanding(us[0], l);
      MixedSeenExactly(rest, next);
      if MixedSeen(rest, next) {
        var i: nat :| i < |rest| && IsKeyUnit(rest[i].nal)
                      && Examined(rest[i], i == |rest| - 1, LandingAt(rest, i, next));
        assert us[i + 1] == rest[i] && LandingAt(us, i + 1, l) == LandingAt(rest, i, next);
      }
      forall i: nat | i < |us| && IsKeyUnit(us[i].nal) && Examined(us[i], i == |us| - 1, LandingAt(us, i, l))
        ensures MixedSeen(us, l)
      {
        if i > 0 {
          assert us[i] == rest[i - 1] && LandingAt(us, i, l) == LandingAt(rest, i - 1, next);
        }
      }
      if IsKeyUnit(us[0].nal) && Examined(us[0], |us| == 1, l) { assert LandingAt(us, 0, l) == l; }
    }
  }

  /** On any stream, with start codes of three and four bytes and with empty units, the scanner says yes
      exactly when it comes to look at the type of a key unit. */
  lemma AnyStreamScanned(us: seq<Prefixed>)
    requires NoCodeWithin(us)
    ensures Scan(Mixed(us)) <==>
            exists i: nat :: i < |us| && IsKeyUnit(us[i].nal)
                             && Examined(us[i], i == |us| - 1, LandingAt(us, i, OnPrefix))
  {
    MixedFound(us, OnPrefix);
    MixedSeenExactly(us, OnPrefix);
  }

  /** Unit i is a single byte behind a start code of three bytes at the very end: the loop stops before it. */
  predicate CutOff(us: seq<Prefixed>, i: nat)
    requires i < |us|
  {
    i == |us| - 1 && !us[i].long && |us[i].nal| == 1 && !(i > 0 && EndsInZero(us[i - 1].nal))
  }

  lemma {:induction false} LandingWithoutEmpty(us: seq<Prefixed>, i: nat, l: Landing)
    requires i < |us| && !l.InsidePrefix? && forall u | u in us :: u.nal != []
    ensures LandingAt(us, i, l) == if i == 0 then l else if EndsInZero(us[i - 1].nal) then BehindZero else OnPrefix
  {
    if i > 0 {
      assert us[0] in us;
      forall u | u in us[1..] ensures u in us { }
      LandingWithoutEmpty(us[1..], i - 1, NextLanding(us[0], l));
    }
  }

  /** On a stream without empty units that mixes both start codes, the scanner sees every key unit but one: a
      single byte at the very end behind a start code of three bytes. */
  lemma MixedScanExact(us: seq<Prefixed>)
    requires NoCodeWithin(us) && forall u | u in us :: u.nal != []
    ensures Scan(Mixed(us)) <==> exists i: nat :: i < |us| && IsKeyUnit(us[i].nal) && !CutOff(us, i)
  {
    AnyStreamScanned(us);
    forall i: nat | i < |us| ensures Examined(us[i], i == |us| - 1, LandingAt(us, i, OnPrefix)) <==> !CutOff(us, i) {
      assert us[i] in us;
      LandingWithoutEmpty(us, i, OnPrefix);
    }
  }

  // ---- Agent and viewer together ----

  ghost predicate HasKeyUnit(ns: seq<Nal>) {
    exists n :: n in ns && IsKeyUnit(n)
  }

  /** A first length of 256 to 511 is read as a start code of three bytes and a unit type. */
  lemma LengthReadAsCode(ns: seq<Nal>)
    requires Convertible(ns) && ns != [] && 256 <= |ns[0]| < 512
    ensures Scan(Ensured(Avcc(ns))) <==> KeyType(|ns[0]| - 256) || Scan(ns[0] + Avcc(ns[1..]))
  {
    var n, rest := ns[0], ns[0] + Avcc(ns[1..]);
    ListEnsured(ns);
    LengthAsCode(|n|);
    AvccFront(ns);
    BehindShortCode(|n| - 256, rest);
  }

  lemma LengthAsCode(k: nat)
    requires 256 <= k < 512
    ensures BigEndian(k, 4) == [0, 0, 1, k - 256]
  {
    FourBytes(k);
  }

  lemma AvccFront(ns: seq<Nal>)
    requires ns != []
    ensures Avcc(ns) == BigEndian(|ns[0]|, 4) + (ns[0] + Avcc(ns[1..]))
  {
  }

  lemma BehindShortCode(b: byte, rest: seq<byte>)
    requires rest != []
    ensures Scan([0, 0, 1, b] + rest) == (KeyType(b) || Scan(rest))
  {
    assert ([0, 0, 1, b] + rest)[4..] == rest;
  }

  /** A first length of 1 is the start code of four bytes. */
  lemma LengthOfOne(ns: seq<Nal>)
    requires Convertible(ns) && ns != [] && |ns[0]| == 1
    ensures Scan(Ensured(Avcc(ns))) <==> KeyType(ns[0][0]) || Scan(Avcc(ns[1..]))
  {
    ListEnsured(ns);
    FourBytes(1);
    AvccFront(ns);
    assert ns[0] == [ns[0][0]];
    BehindLongCode(ns[0][0], Avcc(ns[1..]));
    assert Avcc(ns) == [0, 0, 0, 1, ns[0][0]] + Avcc(ns[1..]);
  }

  lemma BehindLongCode(b: byte, rest: seq<byte>)
    ensures Scan([0, 0, 0, 1, b] + rest) == (KeyType(b) || Scan(rest))
  {
    assert ([0, 0, 0, 1, b] + rest)[5..] == rest;
  }

  /** AVCC output is recognised as a keyframe exactly when it holds one, if its first length is unambiguous
      or all units are single bytes. Otherwise the first length is itself taken for a start code, and the
      answer is that of the bytes behind it. */
  lemma ConvertThenScan(ns: seq<Nal>)
    requires Convertible(ns) && forall n | n in ns :: NoStartCode(n)
    ensures ns == [] || !Ambiguous(|ns[0]|) || (forall n | n in ns :: |n| == 1) ==>
              (Scan(Ensured(Avcc(ns))) <==> HasKeyUnit(ns))
    ensures ns != [] && 256 <= |ns[0]| < 512 ==>
              (Scan(Ensured(Avcc(ns))) <==> KeyType(|ns[0]| - 256) || Scan(ns[0] + Avcc(ns[1..])))
    ensures ns != [] && |ns[0]| == 1 ==>
              (Scan(Ensured(Avcc(ns))) <==> KeyType(ns[0][0]) || Scan(Avcc(ns[1..])))
  {
    if ns == [] || !Ambiguous(|ns[0]|) || (forall n | n in ns :: |n| == 1) {
      ConvertsExactlyWhen(ns);
      ScanExact(ns);
    }
    if ns != [] && 256 <= |ns[0]| < 512 { LengthReadAsCode(ns); }
    if ns != [] && |ns[0]| == 1 { LengthOfOne(ns); }
  }

  /** A single unit is recognised by its own type, unless its length lies in 256..511: then by the low byte
      of its length. */
  lemma SingleUnit(n: Nal)
    requires 0 < |n| < LENGTH_LIMIT && NoStartCode(n)
    ensures Scan(Ensured(Avcc([n]))) <==> KeyType(if 256 <= |n| < 512 then |n| - 256 else n[0])
  {
    var ns := [n];
    ConvertThenScan(ns);
    if 256 <= |n| < 512 {
      assert ns[1..] == [] && Avcc([]) == [] && Stream([]) == [];
      ScanSkipsUnit(n, []);
    } else {
      assert n in ns;
      assert HasKeyUnit(ns) <==> IsKeyUnit(n);
    }
  }

  /** 261 bytes of type 1 pass for a keyframe, 257 bytes of type 5 do not. */
  lemma AmbiguousUnits()
    ensures var n := seq(261, i => 1); !IsKeyUnit(n) && Scan(Ensured(Avcc([n])))
    ensures var n := seq(257, i => 5); IsKeyUnit(n) && !Scan(Ensured(Avcc([n])))
  {
    var m: Nal, n: Nal := seq(261, i => 1), seq(257, i => 5);
    SingleUnit(m);
    SingleUnit(n);
  }

  // ---- Units by the fields of their header ----

  /** The header byte of a unit: forbidden bit, reference indicator, type (section 7.3.1 of ITU-T H.264). */
  ghost predicate HasFields(b: byte, forbidden: nat, reference: nat, kind: nat) {
    forbidden < 2 && reference < 4 && kind < 32 && b == 128 * forbidden + 32 * reference + kind
  }

  /** A byte marks a keyframe exactly when its type field is 5, 7 or 8, whatever the other fields are. */
  lemma KeyTypeExactly(b: byte, forbidden: nat, reference: nat, kind: nat)
    requires HasFields(b, forbidden, reference, kind)
    ensures KeyType(b) <==> kind == 5 || kind == 7 || kind == 8
  {
    assert b % 32 == kind;
  }

  /** A unit whose header has type 5 (IDR slice), 7 (sequence parameters) or 8 (picture parameters). */
  ghost predicate CarriesKey(n: Nal) {
    n != [] && exists f: nat, r: nat, t: nat :: HasFields(n[0], f, r, t) && (t == 5 || t == 7 || t == 8)
  }

  lemma CarriesExactly(n: Nal)
    ensures IsKeyUnit(n) <==> CarriesKey(n)
  {
    if n != [] {
      var b: nat := n[0];
      assert HasFields(n[0], b / 128, b / 32 % 4, b % 32);
      forall f: nat, r: nat, t: nat | HasFields(n[0], f, r, t) ensures KeyType(n[0]) <==> t == 5 || t == 7 || t == 8 {
        KeyTypeExactly(n[0], f, r, t);
      }
    }
  }

  /** On the Annex B form of any list of non-empty units, the viewer's scan says yes exactly when one of
      them has type 5, 7 or 8. */
  lemma ScanByType(ns: seq<Nal>)
    requires forall n | n in ns :: n != [] && NoStartCode(n)
    ensures Scan(Stream(ns)) <==> exists n :: n in ns && CarriesKey(n)
  {
    ScanExact(ns);
    forall n | n in ns ensures IsKeyUnit(n) <==> CarriesKey(n) { CarriesExactly(n); }
  }

  /** The same behind the agent's converter, for every list whose first length is unambiguous. */
  lemma ConvertThenScanByType(ns: seq<Nal>)
    requires Convertible(ns) && forall n | n in ns :: NoStartCode(n)
    ensures ns == [] || !(|ns[0]| == 1 || 256 <= |ns[0]| < 512) || (forall n | n in ns :: |n| == 1) ==>
              (Scan(Ensured(Avcc(ns))) <==> exists n :: n in ns && CarriesKey(n))
  {
    ConvertThenScan(ns);
    forall n | n in ns ensures IsKeyUnit(n) <==> CarriesKey(n) { CarriesExactly(n); }
  }

  /** The same on any stream, for the units whose type the scanner comes to look at. */
  lemma AnyStreamByType(us: seq<Prefixed>)
    requires NoCodeWithin(us)
    ensures Scan(Mixed(us)) <==>
            exists i: nat :: i < |us| && CarriesKey(us[i].nal)
                             && Examined(us[i], i == |us| - 1, LandingAt(us, i, OnPrefix))
  {
    AnyStreamScanned(us);
    forall i: nat | i < |us| ensures IsKeyUnit(us[i].nal) <==> CarriesKey(us[i].nal) { CarriesExactly(us[i].nal); }
  }

  /** An IDR slice, a sequence parameter set and a picture parameter set with their usual headers are
      recognised; an ordinary slice is not. */
  lemma UsualHeaders(payload: byte)
    ensures Scan([0, 0, 0, 1, 0x65, payload]) && Scan([0, 0, 0, 1, 0x67, payload]) && Scan([0, 0, 0, 1, 0x68, payload])
    ensures !Scan([0, 0, 0, 1, 0x41, payload])
  {
    forall b: byte | b in {0x65, 0x67, 0x68, 0x41} ensures Scan([0, 0, 0, 1, b, payload]) == KeyType(b) {
      assert [0, 0, 0, 1, b, payload] == [0, 0, 0, 1, b] + [payload];
      BehindLongCode(b, [payload]);
    }
  }
}
