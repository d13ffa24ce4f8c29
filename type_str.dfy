/**
 * type2str (CameraPoseEstimator.cpp:884-923): the name of an OpenCV matrix
 * type code, such as "8UC3", made of the depth name, a 'C' and one character
 * for the channel count. The code arrives as a 32-bit two's-complement int.
 */
module TypeString {

  /** The C++ `int` the type code arrives in. */
  newtype Int32 = x: int | -0x8000_0000 <= x < 0x8000_0000

  /**
   * `type & CV_MAT_DEPTH_MASK` (the mask is 7): on a two's-complement int the
   * low three bits are the remainder modulo 8, negative codes included.
   */
  function Depth(t: Int32): (d: nat)
    ensures d < 8
  {
    t as int % 8
  }

  /**
   * `1 + (type >> CV_CN_SHIFT)` (the shift is 3) stored in a uchar: the
   * arithmetic shift of a signed int is floor division by 8, and the uchar
   * keeps the sum modulo 256.
   */
  function Channels(t: Int32): (c: nat)
    ensures c < 256
  {
    (1 + t as int / 8) % 256
  }

  /** The switch over the depth code: CV_8U .. CV_64F are 0 .. 6, anything else is "User". */
  function DepthName(depth: nat): (name: string)
    ensures 2 <= |name| <= 4
  {
    match depth
    case 0 => "8U"
    case 1 => "8S"
    case 2 => "16U"
    case 3 => "16S"
    case 4 => "32S"
    case 5 => "32F"
    case 6 => "64F"
    case _ => "User"
  }

  /**
   * `r += (chans + '0')`: the uchar is promoted to int, added to '0' (48),
   * and the sum is converted back to a char, which keeps its low eight bits.
   */
  function ChannelChar(chans: nat): (ch: char)
    requires chans < 256
    ensures ch as int < 256
    ensures chans <= 9 ==> '0' <= ch <= '9' && ch as int - '0' as int == chans
  {
    ((chans + '0' as int) % 256) as char
  }

  /** type2str: the depth name, then "C", then the channel character. */
  function Type2Str(t: Int32): (r: string)
    ensures 4 <= |r| <= 6 && r[|r| - 2] == 'C'
  {
    DepthName(Depth(t)) + "C" + [ChannelChar(Channels(t))]
  }

  /**
   * CV_MAKETYPE(depth, cn): the type code of a depth code and a channel count
   * between 1 and CV_CN_MAX (512).
   */
  function MakeType(depth: nat, cn: nat): (t: Int32)
    requires depth < 8 && 1 <= cn <= 512
    ensures 0 <= t < 4096
  {
    (depth + (cn - 1) * 8) as Int32
  }

  /** type2str reads back the depth code and, modulo 256, the channel count that CV_MAKETYPE packed. */
  lemma MakeTypeDecodes(depth: nat, cn: nat)
    requires depth < 8 && 1 <= cn <= 512
    ensures Depth(MakeType(depth, cn)) == depth
    ensures Channels(MakeType(depth, cn)) == cn % 256
  {
    var t := MakeType(depth, cn) as int;
    assert t == (cn - 1) * 8 + depth;
    assert t / 8 == cn - 1 && t % 8 == depth;
  }

  /**
   * For a packed code with at most nine channels the name is the depth name,
   * 'C' and the channel count's digit.
   */
  lemma NameOfPackedType(depth: nat, cn: nat)
    requires depth < 8 && 1 <= cn <= 9
    ensures Type2Str(MakeType(depth, cn)) == DepthName(depth) + "C" + [('0' as int + cn) as char]
  {
    MakeTypeDecodes(depth, cn);
    assert ChannelChar(cn) == ('0' as int + cn) as char;
  }

  /** The name a depth name was made from: the switch read backwards. */
  function DepthCode(name: string): (d: nat)
    ensures d < 8
  {
    if name == "8U" then 0
    else if name == "8S" then 1
    else if name == "16U" then 2
    else if name == "16S" then 3
    else if name == "32S" then 4
    else if name == "32F" then 5
    else if name == "64F" then 6
    else 7
  }

  /** Reading a depth name back gives the depth code it names; every unlisted code is "User", read back as 7. */
  lemma DepthNameRoundTrip(depth: nat)
    requires depth < 8
    ensures DepthCode(DepthName(depth)) == depth
    ensures depth == 7 ==> DepthName(depth) == "User"
  {
  }

  /** Different depth codes get different names. */
  lemma DepthNamesDistinct(d1: nat, d2: nat)
    requires d1 < 8 && d2 < 8
    ensures DepthName(d1) == DepthName(d2) <==> d1 == d2
  {
    DepthNameRoundTrip(d1);
    DepthNameRoundTrip(d2);
  }

  /**
   * The name determines the depth code and the stored channel count: two
   * codes get the same string exactly when both agree.
   */
  lemma SameNameIffSameFields(t1: Int32, t2: Int32)
    ensures Type2Str(t1) == Type2Str(t2) <==> Depth(t1) == Depth(t2) && Channels(t1) == Channels(t2)
  {
    var n1, n2 := DepthName(Depth(t1)), DepthName(Depth(t2));
    var c1, c2 := ChannelChar(Channels(t1)), ChannelChar(Channels(t2));
    var r1, r2 := Type2Str(t1), Type2Str(t2);
    assert r1 == n1 + ['C', c1] && r2 == n2 + ['C', c2];
    if r1 == r2 {
      assert |n1| == |n2|;
      assert r1[..|n1|] == n1 && r2[..|n2|] == n2;
      DepthNamesDistinct(Depth(t1), Depth(t2));
      assert r1[|r1| - 1] == c1 && r2[|r2| - 1] == c2;
      assert (Channels(t1) + 48) % 256 == (Channels(t2) + 48) % 256;
    }
  }

  /** A negative code: -1 has all bits set, so its depth bits read 7 and its channel count wraps to 0. */
  lemma MinusOneIsUserC0()
    ensures Type2Str(-1) == "UserC0"
  {
    assert Depth(-1) == 7 && Channels(-1) == 0;
    assert ChannelChar(0) == '0';
  }

  /** Ten or more channels do not give two digits: one character past '9' is written instead. */
  lemma TenChannelsWriteColon()
    ensures Type2Str(MakeType(0, 10)) == "8UC:"
  {
    MakeTypeDecodes(0, 10);
    assert ChannelChar(10) == ':';
  }
}
