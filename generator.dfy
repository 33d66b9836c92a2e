/** The three sample generators.  Each fills a file of `size` bytes by
    appending chunks of a source, cutting the last chunk short, in a loop that
    runs while fewer than `size` bytes have been written.  The file is the
    sequence of bytes written to it; the random choices and the random block
    are inputs. */
module Generator {

  /** One byte of a file. */
  newtype Byte = x: int | 0 <= x < 256

  /** The number of bytes in `mb` mebibytes. */
  function SizeBytes(mb: int): (n: int)
    ensures n % (1024 * 1024) == 0 && n / (1024 * 1024) == mb
  {
    LemmaMultipleOfMebibyte(mb);
    mb * 1024 * 1024
  }

  lemma LemmaMultipleOfMebibyte(mb: int)
    ensures (mb * 1024 * 1024) % (1024 * 1024) == 0 && (mb * 1024 * 1024) / (1024 * 1024) == mb
  {
    assert mb * 1024 * 1024 == mb * (1024 * 1024);
  }

  function Min(a: int, b: int): int {
    if a <= b then a else b
  }

  /** `s` written `n` times in a row. */
  function Repeat(s: seq<Byte>, n: nat): (r: seq<Byte>)
    requires |s| > 0
    ensures |r| == n * |s|
    ensures forall i :: 0 <= i < |r| ==> r[i] == s[i % |s|]
  {
    seq(n * |s|, i requires 0 <= i < n * |s| => s[i % |s|])
  }

  /** The bytes of an ASCII text. */
  function Ascii(text: string): (r: seq<Byte>)
    ensures |r| == |text|
    ensures forall i :: 0 <= i < |r| ==> r[i] as int == text[i] as int % 256
  {
    seq(|text|, i requires 0 <= i < |text| => (text[i] as int % 256) as Byte)
  }

  // ----- what a fill loop writes -----

  /** A position in the list of four patterns of the patterned generator. */
  type Slot = i: int | 0 <= i < 4

  /** Where a fill loop takes its chunks from, and which one it takes next:
      the same chunk every turn; two chunks by turns; or, at each turn, the
      pattern that the random choice of that turn picks. */
  datatype Source =
    | Same(chunk: seq<Byte>)
    | Alternate(first: seq<Byte>, second: seq<Byte>, firstNext: bool)
    | Chosen(patterns: seq<seq<Byte>>, choice: nat -> Slot, turn: nat)

  /** Every chunk the source can give has at least one byte, and every random
      choice picks one of the patterns. */
  ghost predicate Valid(src: Source) {
    match src
    case Same(chunk) => |chunk| > 0
    case Alternate(first, second, _) => |first| > 0 && |second| > 0
    case Chosen(patterns, _, _) =>
      |patterns| == 4 && forall i :: 0 <= i < 4 ==> |patterns[i]| > 0
  }

  /** The chunk of the current turn. */
  ghost function Chunk(src: Source): (c: seq<Byte>)
    requires Valid(src)
    ensures |c| > 0
  {
    match src
    case Same(chunk) => chunk
    case Alternate(first, second, firstNext) => if firstNext then first else second
    case Chosen(patterns, choice, turn) => patterns[choice(turn)]
  }

  /** The source on the next turn. */
  ghost function Next(src: Source): (n: Source)
    requires Valid(src)
    ensures Valid(n)
  {
    match src
    case Same(_) => src
    case Alternate(first, second, firstNext) => Alternate(first, second, !firstNext)
    case Chosen(patterns, choice, turn) => Chosen(patterns, choice, turn + 1)
  }

  /** What the fill loop writes when `budget` bytes are still missing: the
      current chunk cut to the budget, then what it writes on the next turns. */
  ghost function Fill(src: Source, budget: int): seq<Byte>
    requires Valid(src)
    decreases if budget < 0 then 0 else budget
  {
    if budget <= 0 then []
    else
      var w := Chunk(src)[..Min(|Chunk(src)|, budget)];
      w + Fill(Next(src), budget - |w|)
  }

  /** One turn of the fill loop: the chunk of the turn and how many of its
      bytes are written. */
  datatype Cut = Cut(chunk: seq<Byte>, len: nat)

  /** The turns of the fill loop when `budget` bytes are still missing. */
  ghost function Cuts(src: Source, budget: int): seq<Cut>
    requires Valid(src)
    decreases if budget < 0 then 0 else budget
  {
    if budget <= 0 then []
    else
      var n := Min(|Chunk(src)|, budget);
      [Cut(Chunk(src), n)] + Cuts(Next(src), budget - n)
  }

  /** The bytes the turns write, one after another. */
  function Bytes(cs: seq<Cut>): seq<Byte> {
    if cs == [] then []
    else
      var c := cs[0];
      (if c.len <= |c.chunk| then c.chunk[..c.len] else c.chunk) + Bytes(cs[1..])
  }

  /** Exactly the missing bytes are written: none when nothing is missing. */
  lemma {:induction false} FillLength(src: Source, budget: int)
    requires Valid(src)
    ensures |Fill(src, budget)| == if budget <= 0 then 0 else budget
    decreases if budget < 0 then 0 else budget
  {
    if budget > 0 {
      var w := Chunk(src)[..Min(|Chunk(src)|, budget)];
      FillLength(Next(src), budget - |w|);
    }
  }

  /** What the fill loop has written when it stops, if it has written `done`
      so far and `budget` bytes are still missing. */
  ghost function Written(src: Source, budget: int, done: seq<Byte>): seq<Byte>
    requires Valid(src)
    decreases if budget < 0 then 0 else budget
  {
    if budget <= 0 then done
    else
      var w := Chunk(src)[..Min(|Chunk(src)|, budget)];
      Written(Next(src), budget - |w|, done + w)
  }

  /** The loop ends with what it had written followed by what it still writes. */
  lemma {:induction false} WrittenFill(src: Source, budget: int, done: seq<Byte>)
    requires Valid(src)
    ensures Written(src, budget, done) == done + Fill(src, budget)
    decreases if budget < 0 then 0 else budget
  {
    if budget > 0 {
      var w := Chunk(src)[..Min(|Chunk(src)|, budget)];
      var rest := Fill(Next(src), budget - |w|);
      WrittenFill(Next(src), budget - |w|, done + w);
      assert (done + w) + rest == done + (w + rest);
    } else {
      assert done + [] == done;
    }
  }

  /** What is written is what the turns write, one after another. */
  lemma {:induction false} FillBytes(src: Source, budget: int)
    requires Valid(src)
    ensures Fill(src, budget) == Bytes(Cuts(src, budget))
    decreases if budget < 0 then 0 else budget
  {
    if budget > 0 {
      var n := Min(|Chunk(src)|, budget);
      var rest := Cuts(Next(src), budget - n);
      FillBytes(Next(src), budget - n);
      assert ([Cut(Chunk(src), n)] + rest)[1..] == rest;
    }
  }

  /** Every turn writes a non-empty start of its chunk, and every turn but the
      last writes the whole chunk; there is a turn exactly when something is
      missing. */
  lemma {:induction false} CutsLengths(src: Source, budget: int)
    requires Valid(src)
    ensures var cs := Cuts(src, budget);
      (cs == [] <==> budget <= 0)
      && (forall i :: 0 <= i < |cs| ==> 0 < cs[i].len <= |cs[i].chunk|)
      && (forall i :: 0 <= i < |cs| - 1 ==> cs[i].len == |cs[i].chunk|)
    decreases if budget < 0 then 0 else budget
  {
    if budget > 0 {
      var n := Min(|Chunk(src)|, budget);
      var rest := Cuts(Next(src), budget - n);
      CutsLengths(Next(src), budget - n);
      var cs := [Cut(Chunk(src), n)] + rest;
      assert forall i :: 0 < i < |cs| ==> cs[i] == rest[i - 1];
    }
  }

  /** Turn `i` of the patterned loop takes the pattern picked on turn `i`. */
  lemma {:induction false} ChosenCuts(patterns: seq<seq<Byte>>, choice: nat -> Slot, turn: nat, budget: int)
    requires Valid(Chosen(patterns, choice, turn))
    ensures var cs := Cuts(Chosen(patterns, choice, turn), budget);
      forall i :: 0 <= i < |cs| ==> cs[i].chunk == patterns[choice(turn + i)]
    decreases if budget < 0 then 0 else budget
  {
    if budget > 0 {
      var src := Chosen(patterns, choice, turn);
      var n := Min(|Chunk(src)|, budget);
      var rest := Cuts(Next(src), budget - n);
      ChosenCuts(patterns, choice, turn + 1, budget - n);
      assert rest == Cuts(Chosen(patterns, choice, turn + 1), budget - n);
      var cs := [Cut(Chunk(src), n)] + rest;
      forall i | 0 < i < |cs|
        ensures cs[i].chunk == patterns[choice(turn + i)]
      {
        assert cs[i] == rest[i - 1] && 0 <= i - 1 < |rest|;
        assert rest[i - 1].chunk == patterns[choice((turn + 1) + (i - 1))];
        assert turn + i == (turn + 1) + (i - 1);
      }
    }
  }

  /** The chunk of turn `i` of a source that alternates `first` and `second`,
      with `first` on turn 0 exactly when `firstNext`. */
  function Turn(first: seq<Byte>, second: seq<Byte>, firstNext: bool, i: nat): seq<Byte> {
    if (i % 2 == 0) == firstNext then first else second
  }

  lemma TurnNext(first: seq<Byte>, second: seq<Byte>, firstNext: bool, i: nat)
    requires i > 0
    ensures Turn(first, second, !firstNext, i - 1) == Turn(first, second, firstNext, i)
  {
    assert (i % 2 == 0) == ((i - 1) % 2 != 0);
  }

  /** Turn `i` of the alternating loop takes the chunk of turn `i`. */
  lemma {:induction false} AlternateCuts(first: seq<Byte>, second: seq<Byte>, firstNext: bool, budget: int)
    requires |first| > 0 && |second| > 0
    ensures var cs := Cuts(Alternate(first, second, firstNext), budget);
      forall i :: 0 <= i < |cs| ==> cs[i].chunk == Turn(first, second, firstNext, i)
    decreases if budget < 0 then 0 else budget
  {
    if budget > 0 {
      var src := Alternate(first, second, firstNext);
      var n := Min(|Chunk(src)|, budget);
      var rest := Cuts(Next(src), budget - n);
      AlternateCuts(first, second, !firstNext, budget - n);
      var cs := [Cut(Chunk(src), n)] + rest;
      forall i | 0 < i < |cs|
        ensures cs[i].chunk == Turn(first, second, firstNext, i)
      {
        assert cs[i] == rest[i - 1];
        TurnNext(first, second, firstNext, i);
      }
    }
  }

  /** When every chunk is the one chunk `chunk`, every byte written is one of
      its bytes. */
  lemma {:induction false} FillSameBytes(chunk: seq<Byte>, budget: int, x: Byte)
    requires |chunk| > 0 && forall i :: 0 <= i < |chunk| ==> chunk[i] == x
    ensures forall i :: 0 <= i < |Fill(Same(chunk), budget)| ==> Fill(Same(chunk), budget)[i] == x
    decreases if budget < 0 then 0 else budget
  {
    if budget > 0 {
      var w := chunk[..Min(|chunk|, budget)];
      FillSameBytes(chunk, budget - |w|, x);
    }
  }

  // ----- the three generators -----

  /** The repetitive chunk: 1024 bytes `A`. */
  const Block: seq<Byte> := Repeat([0x41], 1024)

  /** The four patterns the patterned generator chooses from: the digits and a
      newline, seven `A` and a newline, `ABCD` 64 times, and the bytes 0x00 0xFF
      64 times. */
  const Patterns: seq<seq<Byte>> := [
    [0x30, 0x31, 0x32, 0x33, 0x34, 0x35, 0x36, 0x37, 0x38, 0x39, 0x0A],
    [0x41, 0x41, 0x41, 0x41, 0x41, 0x41, 0x41, 0x0A],
    Repeat([0x41, 0x42, 0x43, 0x44], 64),
    Repeat([0x00, 0xFF], 64)
  ]

  /** The text chunk of the realistic generator: one sentence ten times. */
  const Lorem: seq<Byte> := Repeat(Ascii("Lorem ipsum dolor sit amet, consectetur adipiscing elit. "), 10)

  /** The sizes and contents of the chunks the generators write. */
  lemma ChunkConstants()
    ensures |Block| == 1024 && forall i :: 0 <= i < |Block| ==> Block[i] == 0x41
    ensures |Patterns| == 4
    ensures |Patterns[0]| == 11 && |Patterns[1]| == 8 && |Patterns[2]| == 256 && |Patterns[3]| == 128
    ensures |Lorem| == 570
  {
  }

  /** Writes 1024-byte chunks of `A`, the last one cut to what is missing. */
  method GenRepetitive(size: int) returns (out: seq<Byte>)
    ensures out == Fill(Same(Block), size)
    ensures |out| == if size <= 0 then 0 else size
  {
    var chunk := Block;
    ghost var src := Same(chunk);
    out := [];
    var written := 0;
    while written < size
      invariant 0 <= written && (written <= size || written == 0)
      invariant written == |out|
      invariant src == Same(chunk)
      invariant Written(src, size - written, out) == Written(Same(chunk), size, [])
      decreases size - written
    {
      var remain := Min(|chunk|, size - written);
      out := out + chunk[..remain];
      written := written + remain;
      src := Next(src);
    }
    WrittenFill(Same(chunk), size, []);
    assert [] + Fill(Same(chunk), size) == Fill(Same(chunk), size);
    FillLength(Same(chunk), size);
  }

  /** Writes the pattern picked at each turn, the last one cut to what is
      missing; `choice(k)` is the position of the pattern picked on turn `k`. */
  method GenPatterned(size: int, choice: nat -> Slot) returns (out: seq<Byte>)
    ensures out == Fill(Chosen(Patterns, choice, 0), size)
    ensures |out| == if size <= 0 then 0 else size
  {
    var patterns := Patterns;
    ChunkConstants();
    ghost var src := Chosen(patterns, choice, 0);
    assert Valid(src);
    out := [];
    var written := 0;
    var k := 0;
    while written < size
      invariant 0 <= written && (written <= size || written == 0)
      invariant written == |out|
      invariant src == Chosen(patterns, choice, k) && Valid(src)
      invariant Written(src, size - written, out) == Written(Chosen(patterns, choice, 0), size, [])
      decreases size - written
    {
      var p := patterns[choice(k)];
      var toWrite := p[..Min(|p|, size - written)];
      out := out + toWrite;
      written := written + |toWrite|;
      src := Next(src);
      k := k + 1;
    }
    WrittenFill(Chosen(patterns, choice, 0), size, []);
    assert [] + Fill(Chosen(patterns, choice, 0), size) == Fill(Chosen(patterns, choice, 0), size);
    FillLength(Chosen(patterns, choice, 0), size);
  }

  /** Writes the text and the random block by turns, text first, the last chunk
      cut to what is missing. */
  method GenRealistic(size: int, block: seq<Byte>) returns (out: seq<Byte>)
    requires |block| == 1024
    ensures out == Fill(Alternate(Lorem, block, true), size)
    ensures |out| == if size <= 0 then 0 else size
  {
    var lorem := Lorem;
    ChunkConstants();
    ghost var src := Alternate(lorem, block, true);
    out := [];
    var written := 0;
    var toggle := true;
    while written < size
      invariant 0 <= written && (written <= size || written == 0)
      invariant written == |out|
      invariant src == Alternate(lorem, block, toggle)
      invariant Written(src, size - written, out) == Written(Alternate(lorem, block, true), size, [])
      decreases size - written
    {
      var w;
      if toggle {
        w := lorem[..Min(|lorem|, size - written)];
      } else {
        w := block[..Min(|block|, size - written)];
      }
      out := out + w;
      written := written + |w|;
      toggle := !toggle;
      src := Next(src);
    }
    WrittenFill(Alternate(lorem, block, true), size, []);
    assert [] + Fill(Alternate(lorem, block, true), size) == Fill(Alternate(lorem, block, true), size);
    FillLength(Alternate(lorem, block, true), size);
  }

  // ----- what the generators promise -----

  /** The repetitive file is `size` bytes, all `A`. */
  lemma RepetitiveAllA(size: int)
    ensures var out := Fill(Same(Block), size);
      |out| == (if size <= 0 then 0 else size)
      && forall i :: 0 <= i < |out| ==> out[i] == 0x41
  {
    ChunkConstants();
    FillLength(Same(Block), size);
    FillSameBytes(Block, size, 0x41);
  }

  /** The patterned file is the picked patterns one after another, each whole
      except the last, of which a non-empty start is written. */
  lemma PatternedChunks(size: int, patterns: seq<seq<Byte>>, choice: nat -> Slot)
    requires Valid(Chosen(patterns, choice, 0))
    ensures var cs := Cuts(Chosen(patterns, choice, 0), size);
      Fill(Chosen(patterns, choice, 0), size) == Bytes(cs)
      && (forall i :: 0 <= i < |cs| ==> cs[i].chunk == patterns[choice(i)] && 0 < cs[i].len <= |cs[i].chunk|)
      && (forall i :: 0 <= i < |cs| - 1 ==> cs[i].len == |cs[i].chunk|)
  {
    FillBytes(Chosen(patterns, choice, 0), size);
    CutsLengths(Chosen(patterns, choice, 0), size);
    ChosenCuts(patterns, choice, 0, size);
  }

  /** The realistic file alternates the text and the random block, text first,
      each whole except the last, of which a non-empty start is written. */
  lemma RealisticChunks(size: int, lorem: seq<Byte>, block: seq<Byte>)
    requires |lorem| > 0 && |block| > 0
    ensures var cs := Cuts(Alternate(lorem, block, true), size);
      Fill(Alternate(lorem, block, true), size) == Bytes(cs)
      && (forall i :: 0 <= i < |cs| ==>
            cs[i].chunk == (if i % 2 == 0 then lorem else block) && 0 < cs[i].len <= |cs[i].chunk|)
      && (forall i :: 0 <= i < |cs| - 1 ==> cs[i].len == |cs[i].chunk|)
  {
    var cs := Cuts(Alternate(lorem, block, true), size);
    FillBytes(Alternate(lorem, block, true), size);
    CutsLengths(Alternate(lorem, block, true), size);
    AlternateCuts(lorem, block, true, size);
    forall i | 0 <= i < |cs|
      ensures Turn(lorem, block, true, i) == if i % 2 == 0 then lorem else block
    {
    }
  }
}
