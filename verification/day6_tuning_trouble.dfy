/** Day 6: tuning trouble. The start of a packet is marked by four bytes that
    are all different; the answer is the number of bytes read up to and
    including the end of the first such window. The scan keeps the last four
    bytes in a 32-bit shift register. */
module TuningTrouble {

  /** The byte at `j`, or zero before the start of the stream (where the
      register still holds its initial zero bits). */
  function ByteAt(s: seq<bv8>, j: int): bv8 {
    if 0 <= j < |s| then s[j] else 0
  }

  /** Four bytes packed into a `u32`, the oldest in the top byte. */
  function Pack(a: bv8, b: bv8, c: bv8, d: bv8): bv32 {
    ((a as bv32) << 24) | ((b as bv32) << 16) | ((c as bv32) << 8) | (d as bv32)
  }

  /** The register after reading byte `i`: bytes `i - 3` through `i`. */
  function Window(s: seq<bv8>, i: int): bv32 {
    Pack(ByteAt(s, i - 3), ByteAt(s, i - 2), ByteAt(s, i - 1), ByteAt(s, i))
  }

  /** Shifting a byte into the register drops the oldest byte. */
  lemma ShiftIn(a: bv8, b: bv8, c: bv8, d: bv8, e: bv8)
    ensures (Pack(a, b, c, d) << 8) | (e as bv32) == Pack(b, c, d, e)
  {
  }

  /** The masks and shifts of the comparison read back the packed bytes. */
  lemma Unpack(a: bv8, b: bv8, c: bv8, d: bv8)
    ensures (Pack(a, b, c, d) & 0xFF000000) >> 24 == a as bv32
    ensures (Pack(a, b, c, d) & 0x00FF0000) >> 16 == b as bv32
    ensures (Pack(a, b, c, d) & 0x0000FF00) >> 8 == c as bv32
  {
  }

  /** The six comparisons of `get_start_of_packet_marker` on the register
      and the byte just read. */
  predicate AllDifferent(register: bv32, byte: bv32) {
    ((register & 0xFF000000) >> 24) != byte
    && ((register & 0x00FF0000) >> 16) != byte
    && ((register & 0x0000FF00) >> 8) != byte
    && ((register & 0xFF000000) >> 24) != ((register & 0x0000FF00) >> 8)
    && ((register & 0x00FF0000) >> 16) != ((register & 0x0000FF00) >> 8)
    && ((register & 0xFF000000) >> 24) != ((register & 0x00FF0000) >> 16)
  }

  /** On the register of a full window, the comparisons hold exactly when the
      window's four bytes are pairwise different. */
  lemma AllDifferentWindow(s: seq<bv8>, i: nat)
    requires 3 <= i < |s|
    ensures AllDifferent(Window(s, i), s[i] as bv32) <==> Distinct4(s, i)
  {
    assert ByteAt(s, i - 3) == s[i - 3] && ByteAt(s, i - 2) == s[i - 2];
    assert ByteAt(s, i - 1) == s[i - 1] && ByteAt(s, i) == s[i];
    assert Window(s, i) == Pack(s[i - 3], s[i - 2], s[i - 1], s[i]);
    AllDifferentPack(s[i - 3], s[i - 2], s[i - 1], s[i]);
  }

  lemma AllDifferentPack(a: bv8, b: bv8, c: bv8, d: bv8)
    ensures AllDifferent(Pack(a, b, c, d), d as bv32) <==>
      a != b && a != c && a != d && b != c && b != d && c != d
  {
    Unpack(a, b, c, d);
  }

  /** Bytes `i - 3` through `i` are pairwise different. */
  predicate Distinct4<T(==)>(s: seq<T>, i: nat)
    requires 3 <= i < |s|
  {
    s[i - 3] != s[i - 2] && s[i - 3] != s[i - 1] && s[i - 3] != s[i] &&
    s[i - 2] != s[i - 1] && s[i - 2] != s[i] && s[i - 1] != s[i]
  }

  /** The reference definition: one past the end of the first window of four
      different bytes ending at or after `first`, or 0 when there is none. */
  function PacketMarker<T(==)>(s: seq<T>, first: nat): nat
    requires first >= 3
    decreases |s| - first
  {
    if first >= |s| then 0
    else if Distinct4(s, first) then first + 1
    else PacketMarker(s, first + 1)
  }

  /** `PacketMarker` is 0 exactly when no window from `first` on qualifies;
      otherwise it is one past the first qualifying window. */
  lemma {:induction false} PacketMarkerSpec<T>(s: seq<T>, first: nat)
    requires first >= 3
    ensures PacketMarker(s, first) == 0 <==> forall i :: first <= i < |s| ==> !Distinct4(s, i)
    ensures PacketMarker(s, first) != 0 ==>
      first < PacketMarker(s, first) <= |s| && Distinct4(s, PacketMarker(s, first) - 1)
    ensures PacketMarker(s, first) != 0 ==>
      forall i :: first <= i < PacketMarker(s, first) - 1 ==> !Distinct4(s, i)
    decreases |s| - first
  {
    if first < |s| && !Distinct4(s, first) {
      PacketMarkerSpec(s, first + 1);
    }
  }

  /** The loop of `get_start_of_packet_marker`, reporting windows that end at
      index `first` or later: each byte is shifted into the register, and the
      six comparisons of its four bytes decide whether the scan stops. */
  method ScanForMarker(s: seq<bv8>, first: nat) returns (r: nat)
    requires first >= 3
    ensures r == PacketMarker(s, first)
  {
    var register: bv32 := 0;
    assert register == Window(s, -1);
    var index := 0;
    while index < |s|
      invariant 0 <= index <= |s|
      invariant register == Window(s, index - 1)
      invariant forall i :: first <= i < index ==> !Distinct4(s, i)
    {
      var byte := s[index] as bv32;
      ShiftIn(ByteAt(s, index - 4), ByteAt(s, index - 3), ByteAt(s, index - 2), ByteAt(s, index - 1), s[index]);
      register := (register << 8) | byte;
      assert register == Window(s, index);
      if index >= first {
        AllDifferentWindow(s, index);
        if AllDifferent(register, byte) {
          PacketMarkerSpec(s, first);
          return index + 1;
        }
      }
      index := index + 1;
    }
    PacketMarkerSpec(s, first);
    r := 0;
  }

  /** `get_start_of_packet_marker` as written: a window is only reported once
      `index > 3`, so one that ends at index 3 (the first full window) is
      missed. */
  method GetStartOfPacketMarker(s: seq<bv8>) returns (r: nat)
    ensures r == PacketMarker(s, 4)
    ensures r == 0 <==> forall i :: 4 <= i < |s| ==> !Distinct4(s, i)
    ensures r != 0 ==> 5 <= r <= |s| && Distinct4(s, r - 1)
    ensures r != 0 ==> forall i :: 4 <= i < r - 1 ==> !Distinct4(s, i)
  {
    r := ScanForMarker(s, 4);
    PacketMarkerSpec(s, 4);
  }

  /** The evident intent: the first window of four different bytes counts,
      wherever it ends. */
  method StartOfPacketMarker(s: seq<bv8>) returns (r: nat)
    ensures r == PacketMarker(s, 3)
    ensures r == 0 <==> forall i :: 3 <= i < |s| ==> !Distinct4(s, i)
    ensures r != 0 ==> 4 <= r <= |s| && Distinct4(s, r - 1)
    ensures r != 0 ==> forall i :: 3 <= i < r - 1 ==> !Distinct4(s, i)
  {
    r := ScanForMarker(s, 3);
    PacketMarkerSpec(s, 3);
  }

  /** The two agree except when the very first window qualifies. */
  lemma MarkerSkipsFirstWindow<T>(s: seq<T>)
    ensures 3 < |s| && Distinct4(s, 3) ==> PacketMarker(s, 3) == 4 && PacketMarker(s, 4) != 4
    ensures !(3 < |s| && Distinct4(s, 3)) ==> PacketMarker(s, 3) == PacketMarker(s, 4)
  {
    PacketMarkerSpec(s, 4);
  }

  /** The bytes of an ASCII string, as `as_bytes` gives them. */
  function Bytes(s: string): (b: seq<bv8>)
    requires forall i :: 0 <= i < |s| ==> s[i] as int < 128
    ensures |b| == |s|
    ensures forall i :: 0 <= i < |s| ==> b[i] as int == s[i] as int
  {
    var b := seq(|s|, i requires 0 <= i < |s| => (s[i] as int) as bv8);
    forall i | 0 <= i < |s| ensures b[i] as int == s[i] as int {
      ByteRoundTrip(s[i] as int);
    }
    b
  }

  lemma ByteRoundTrip(x: int)
    requires 0 <= x < 256
    ensures (x as bv8) as int == x
  {
    // Splitting the range keeps the bit-vector conversion cheap for the solver.
    if x < 128 {
      if x < 64 { } else { }
    } else {
      if x < 192 { } else { }
    }
  }

  /** Reading an ASCII string as bytes finds the same marker as reading its
      characters. */
  lemma PacketMarkerOfBytes(s: string, first: nat)
    requires forall i :: 0 <= i < |s| ==> s[i] as int < 128
    requires first >= 3
    ensures PacketMarker(Bytes(s), first) == PacketMarker(s, first)
    decreases |s| - first
  {
    var b := Bytes(s);
    if first < |s| {
      assert Distinct4(b, first) <==> Distinct4(s, first);
      PacketMarkerOfBytes(s, first + 1);
    }
  }

  /** The stream `abcd` is a marker on its own, yet the scan as written
      reports none. */
  lemma FirstWindowMissed()
    ensures PacketMarker("abcd", 4) == 0
    ensures PacketMarker("abcd", 3) == 4
  {
  }

  /** The first example stream of the unit tests: `vwbj` ends at byte 5. */
  lemma Example5()
    ensures PacketMarker("bvwbjplbgvbhsrlpgdmjqwftvncz", 4) == 5
  {
  }

  /** The second example stream: `pdvj` ends at byte 6. */
  lemma Example6()
    ensures PacketMarker("nppdvjthqldpwncqszvftbrmjlhg", 4) == 6
  {
  }

  /** The third example stream: `rfnt` ends at byte 10. */
  lemma Example10()
    ensures PacketMarker("nznrnfrfntjfmvfwmzdfjlvtqnbhcprsg", 4) == 10
  {
    var s := "nznrnfrfntjfmvfwmzdfjlvtqnbhcprsg";
    // Each earlier window repeats a byte; `rfnt` does not.
    assert s[2] == s[4] == 'n' && s[3] == s[6] == 'r' && s[5] == s[7] == 'f';
    assert s[6] == 'r' && s[8] == 'n' && s[9] == 't';
    assert !Distinct4(s, 4) && !Distinct4(s, 5) && !Distinct4(s, 6);
    assert !Distinct4(s, 7) && !Distinct4(s, 8) && Distinct4(s, 9);
    assert PacketMarker(s, 9) == 10;
    assert PacketMarker(s, 8) == 10;
    assert PacketMarker(s, 7) == 10;
    assert PacketMarker(s, 6) == 10;
    assert PacketMarker(s, 5) == 10;
    assert PacketMarker(s, 4) == 10;
  }

  /** The fourth example stream: `zqfr` ends at byte 11. */
  lemma Example11()
    ensures PacketMarker("zcfzfwzzqfrljwzlrfnpqdbhtmscgvjw", 4) == 11
  {
    var s := "zcfzfwzzqfrljwzlrfnpqdbhtmscgvjw";
    // Each earlier window repeats a byte; `zqfr` does not.
    assert s[2] == s[4] == 'f' && s[3] == s[6] == 'z' && s[6] == s[7] == 'z';
    assert s[8] == 'q' && s[9] == 'f' && s[10] == 'r';
    assert !Distinct4(s, 4) && !Distinct4(s, 5) && !Distinct4(s, 6);
    assert !Distinct4(s, 7) && !Distinct4(s, 8) && !Distinct4(s, 9) && Distinct4(s, 10);
    assert PacketMarker(s, 10) == 11;
    assert PacketMarker(s, 9) == 11;
    assert PacketMarker(s, 8) == 11;
    assert PacketMarker(s, 7) == 11;
    assert PacketMarker(s, 6) == 11;
    assert PacketMarker(s, 5) == 11;
    assert PacketMarker(s, 4) == 11;
  }
}
