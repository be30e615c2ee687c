/** The Modbus word-swap convention shared by the client and the mock PLC: a
    32-bit pattern travels as two 16-bit holding registers, LOW word first. */
module RegisterCodec {

  import opened Basics

  const WordBase := 0x1_0000

  /** One holding register. */
  type Word = x: int | 0 <= x < 0x1_0000

  /** The 32 bits struct.pack('>HH', ...) yields, read as a big-endian number. */
  type Pattern = x: int | 0 <= x < 0x1_0000_0000

  /** struct.pack('>HH', high, low): the first word packed is the high half. */
  function Join(high: Word, low: Word): Pattern
  {
    high * WordBase + low
  }

  /** struct.unpack('>HH', b), first result. */
  function HighWord(p: Pattern): Word
  {
    p / WordBase
  }

  /** struct.unpack('>HH', b), second result. */
  function LowWord(p: Pattern): Word
  {
    p % WordBase
  }

  lemma JoinOfSplit(p: Pattern)
    ensures Join(HighWord(p), LowWord(p)) == p
  {
  }

  lemma SplitOfJoin(high: Word, low: Word)
    ensures HighWord(Join(high, low)) == high && LowWord(Join(high, low)) == low
  {
  }

  /** The IndexError the client's loop raises at regs_l[i + 1] on an odd count. */
  datatype DecodeError = OddRegisterCount(count: nat)

  /** The client's reading of a register list: value k is the pattern whose high
      word is register 2k+1 and whose low word is register 2k. There is no partial
      result: an odd count is an error. */
  function Decode(regs: seq<Word>): Result<seq<Pattern>, DecodeError>
  {
    if |regs| % 2 == 1 then Err(OddRegisterCount(|regs|))
    else Ok(seq(|regs| / 2, k requires 0 <= k < |regs| / 2 => Join(regs[2 * k + 1], regs[2 * k])))
  }

  /** The mock PLC's register list: for each pattern, its low word then its high word. */
  function Encode(ps: seq<Pattern>): seq<Word>
    decreases |ps|
  {
    if ps == [] then []
    else Encode(ps[..|ps| - 1]) + [LowWord(ps[|ps| - 1]), HighWord(ps[|ps| - 1])]
  }

  lemma {:induction false} EncodeLayout(ps: seq<Pattern>)
    ensures |Encode(ps)| == 2 * |ps|
    ensures forall k :: 0 <= k < |ps| ==>
      Encode(ps)[2 * k] == LowWord(ps[k]) && Encode(ps)[2 * k + 1] == HighWord(ps[k])
    decreases |ps|
  {
    if ps != [] {
      var init := ps[..|ps| - 1];
      EncodeLayout(init);
      forall k | 0 <= k < |ps|
        ensures Encode(ps)[2 * k] == LowWord(ps[k]) && Encode(ps)[2 * k + 1] == HighWord(ps[k])
      {
        if k < |init| {
          assert ps[k] == init[k];
        }
      }
    }
  }

  /** Decoding what the mock encodes gives back every pattern. */
  lemma DecodeOfEncode(ps: seq<Pattern>)
    ensures Decode(Encode(ps)) == Ok(ps)
  {
    EncodeLayout(ps);
    var regs := Encode(ps);
    assert |regs| % 2 == 0 && |regs| / 2 == |ps|;
    var decoded := Decode(regs).value;
    forall k | 0 <= k < |ps|
      ensures decoded[k] == ps[k]
    {
      assert regs[2 * k] == LowWord(ps[k]) && regs[2 * k + 1] == HighWord(ps[k]);
      JoinOfSplit(ps[k]);
    }
    assert decoded == ps;
  }

  /** An even-length register list decodes, and encoding the result gives back
      every word. */
  lemma EncodeOfDecode(regs: seq<Word>)
    requires |regs| % 2 == 0
    ensures Decode(regs).Ok? && Encode(Decode(regs).value) == regs
  {
    var ps := Decode(regs).value;
    EncodeLayout(ps);
    var back := Encode(ps);
    forall j | 0 <= j < |regs|
      ensures back[j] == regs[j]
    {
      var k := j / 2;
      assert 0 <= k < |ps| && ps[k] == Join(regs[2 * k + 1], regs[2 * k]);
      SplitOfJoin(regs[2 * k + 1], regs[2 * k]);
      assert back[2 * k] == regs[2 * k] && back[2 * k + 1] == regs[2 * k + 1];
      assert j == 2 * k || j == 2 * k + 1;
    }
  }

  /** Every decodable list has exactly one value per register pair. */
  lemma DecodeLength(regs: seq<Word>)
    ensures Decode(regs).Ok? <==> |regs| % 2 == 0
    ensures Decode(regs).Ok? ==> |Decode(regs).value| == |regs| / 2
  {
  }
}
