/**
 * Encoded-block checkpoint files: a magic line, an optional signature line, and the block. Bytes are characters below
 * 256.
 */
module EncodedBlocks {
  import opened Options

  const EncodedMagic := "GSG_HWP_ENCODED_BLOCK_V1\n"
  const SignedMagic := "GSG_HWP_ENCODED_BLOCK_V2\n"
  const MagicLength := 25
  const MaximumFileBytes := 256 * 1024 * 1024

  datatype Error = BadSize | BadEncoding | BadMagic | BadPath | BadCreate | BadWrite | BadOpen | BadRead

  datatype Result<T> = Ok(value: T) | Err(error: Error)

  datatype Block = Block(block: string, signature: string)

  /** A wide character cast to a byte. */
  function Low(c: char): char {
    ((c as int) % 256) as char
  }

  function Narrow(s: string): (t: string)
    ensures |t| == |s|
  {
    seq(|s|, i requires 0 <= i < |s| => Low(s[i]))
  }

  predicate IsAscii(c: char) { c as int <= 0x7f }

  predicate IsText(c: char) { 0 < c as int <= 0x7f }

  predicate AllAscii(s: string) { forall i :: 0 <= i < |s| ==> IsAscii(s[i]) }

  predicate AllText(s: string) { forall i :: 0 <= i < |s| ==> IsText(s[i]) }

  // ----- the writer -----

  function Header(signature: string): string {
    if signature == "" then EncodedMagic else SignedMagic + Narrow(signature) + "\n"
  }

  function Saved(b: Block): Result<string> {
    if b.block == "" || |b.block| > MaximumFileBytes - |Header(b.signature)| then Err(BadSize)
    else if !AllAscii(b.block) then Err(BadEncoding)
    else Ok(Header(b.signature) + b.block)
  }

  /** The bytes of a block file. */
  method EncodeBlock(b: Block) returns (r: Result<string>)
    ensures r == Saved(b)
  {
    var signed := b.signature != "";
    var headerLength := MagicLength + if signed then |b.signature| + 1 else 0;
    if b.block == "" || |b.block| > MaximumFileBytes - headerLength {
      return Err(BadSize);
    }
    var bytes := if signed then SignedMagic else EncodedMagic;
    if signed {
      bytes := bytes + Narrow(b.signature) + "\n";
    }
    ghost var header := bytes;
    for i := 0 to |b.block|
      invariant bytes == header + b.block[..i] && AllAscii(b.block[..i])
    {
      if !IsAscii(b.block[i]) {
        return Err(BadEncoding);
      }
      bytes := bytes + [b.block[i]];
    }
    assert b.block[..|b.block|] == b.block;
    r := Ok(bytes);
  }

  /**
   * How an exclusive creation goes: whether the file could be created, whether all of it was written and closed, and
   * what a deletion of a half-written file leaves.
   */
  datatype Writing = Writing(created: bool, complete: bool, leftover: Option<string>)

  /** Writes a file that must not exist yet; what cannot be written completely is deleted again. */
  method WriteExclusive(bytes: string, w: Writing) returns (ok: bool, created: bool, file: Option<string>)
    ensures created == w.created && (ok <==> w.created && w.complete)
    ensures file == if ok then Some(bytes) else if created then w.leftover else None
  {
    if !w.created {
      return false, false, None;
    }
    if !w.complete {
      return false, true, w.leftover;
    }
    ok, created, file := true, true, Some(bytes);
  }

  /**
   * Saves a block into a new file. Nothing is created for a block that cannot be saved; a file that could not be
   * created and one that could not be written are told apart.
   */
  method SaveEncodedBlockFile(b: Block, w: Writing) returns (error: Option<Error>, file: Option<string>)
    ensures error.None? <==> Saved(b).Ok? && w.created && w.complete
    ensures error.None? ==> file == Some(Saved(b).value)
    ensures Saved(b).Err? ==> error == Some(Saved(b).error) && file == None
    ensures Saved(b).Ok? && !w.created ==> error == Some(BadCreate) && file == None
    ensures Saved(b).Ok? && w.created && !w.complete ==> error == Some(BadWrite) && file == w.leftover
  {
    var encoded := EncodeBlock(b);
    if encoded.Err? {
      return Some(encoded.error), None;
    }
    var ok, created;
    ok, created, file := WriteExclusive(encoded.value, w);
    error := if ok then None else if created then Some(BadWrite) else Some(BadCreate);
  }

  // ----- the reader -----

  /** Where the first line feed at or behind `from` is, or the end. */
  function LineEnd(s: string, from: nat): (n: nat)
    requires from <= |s|
    ensures from <= n <= |s| && (forall i :: from <= i < n ==> s[i] != '\n') && (n < |s| ==> s[n] == '\n')
    decreases |s| - from
  {
    if from == |s| || s[from] == '\n' then from else LineEnd(s, from + 1)
  }

  function ReadBody(bytes: string, start: nat, signature: string): Result<Block>
    requires start <= |bytes|
  {
    if !AllText(bytes[start..]) then Err(BadEncoding)
    else if start == |bytes| then Err(BadSize)
    else Ok(Block(bytes[start..], signature))
  }

  function ReadSigned(bytes: string): Result<Block>
    requires MagicLength <= |bytes|
  {
    var end := LineEnd(bytes, MagicLength);
    if end == |bytes| then Err(BadMagic)
    else if !AllText(bytes[MagicLength..end]) then Err(BadEncoding)
    else ReadBody(bytes, end + 1, bytes[MagicLength..end])
  }

  function ReadBack(bytes: string): Result<Block> {
    if |bytes| <= MagicLength || |bytes| > MaximumFileBytes then Err(BadSize)
    else if bytes[..MagicLength] == EncodedMagic then ReadBody(bytes, MagicLength, "")
    else if bytes[..MagicLength] == SignedMagic then ReadSigned(bytes)
    else Err(BadMagic)
  }

  /** Copies text from `start` to `end`, up to the first byte that is not text. */
  method CopyText(bytes: string, start: nat, end: nat) returns (ok: bool, text: string)
    requires start <= end <= |bytes|
    ensures ok <==> AllText(bytes[start..end])
    ensures ok ==> text == bytes[start..end]
  {
    text := "";
    for i := start to end
      invariant text == bytes[start..i] && AllText(text)
    {
      if !IsText(bytes[i]) {
        assert bytes[start..end][i - start] == bytes[i];
        return false, "";
      }
      text := text + [bytes[i]];
    }
    ok := true;
  }

  /** The block and the signature of a block file. */
  method DecodeBlock(bytes: string) returns (r: Result<Block>)
    ensures r == ReadBack(bytes)
  {
    if |bytes| <= MagicLength || |bytes| > MaximumFileBytes {
      return Err(BadSize);
    }
    var legacy := bytes[..MagicLength] == EncodedMagic;
    var signed := !legacy && bytes[..MagicLength] == SignedMagic;
    if !legacy && !signed {
      return Err(BadMagic);
    }
    var start, signature, ok := MagicLength, "", true;
    if signed {
      var end := LineEnd(bytes, MagicLength);
      if end == |bytes| {
        return Err(BadMagic);
      }
      ok, signature := CopyText(bytes, MagicLength, end);
      if !ok {
        return Err(BadEncoding);
      }
      start := end + 1;
    }
    var block;
    ok, block := CopyText(bytes, start, |bytes|);
    assert bytes[start..|bytes|] == bytes[start..];
    if !ok {
      return Err(BadEncoding);
    }
    r := if block == "" then Err(BadSize) else Ok(Block(block, signature));
  }

  /** How reading a file goes; `bytes` is what is in it. */
  datatype FileRead = FileRead(present: bool, sized: bool, complete: bool, bytes: string)

  /** Reads a block file: the block is there exactly when the file could be read in full and is a block file. */
  method ReadEncodedBlockFile(absolute: bool, f: FileRead) returns (r: Result<Block>)
    ensures r.Ok? <==> absolute && f.present && f.sized && f.complete && ReadBack(f.bytes).Ok?
    ensures r.Ok? ==> r == ReadBack(f.bytes)
    ensures r == Err(BadPath) <==> !absolute
    ensures r == Err(BadOpen) <==> absolute && !f.present
    ensures r == Err(BadRead) <==>
            absolute && f.present && f.sized && MagicLength < |f.bytes| <= MaximumFileBytes && !f.complete
  {
    if !absolute {
      return Err(BadPath);
    }
    if !f.present {
      return Err(BadOpen);
    }
    if !f.sized || |f.bytes| <= MagicLength || |f.bytes| > MaximumFileBytes {
      return Err(BadSize);
    }
    if !f.complete {
      return Err(BadRead);
    }
    r := DecodeBlock(f.bytes);
  }

  datatype Layout = EncodedBlock | DocumentFile

  /** The layout as the file's first bytes tell it. */
  function ReadCheckpointLayout(bytes: string): Layout {
    if |bytes| < MagicLength || bytes[..MagicLength] == EncodedMagic || bytes[..MagicLength] == SignedMagic
    then EncodedBlock else DocumentFile
  }

  // ----- what is written is read back -----

  /** A line that survives being written as bytes and read up to the next line feed. */
  predicate LineSafe(s: string) {
    forall i :: 0 <= i < |s| ==> IsText(s[i]) && s[i] != '\n'
  }

  lemma {:induction false} SavedStartsWithMagic(b: Block)
    requires Saved(b).Ok?
    ensures MagicLength < |Saved(b).value| <= MaximumFileBytes
    ensures Saved(b).value[..MagicLength] == if b.signature == "" then EncodedMagic else SignedMagic
  {
    var bytes := Saved(b).value;
    if b.signature == "" {
      assert bytes == EncodedMagic + b.block;
    } else {
      assert bytes == SignedMagic + (Narrow(b.signature) + "\n" + b.block);
    }
  }

  /** A checkpoint that is saved as a block is recognised as one. */
  lemma {:induction false} SavedLayout(b: Block)
    requires Saved(b).Ok?
    ensures ReadCheckpointLayout(Saved(b).value) == EncodedBlock
  {
    SavedStartsWithMagic(b);
  }

  lemma {:induction false} MagicsDiffer()
    ensures EncodedMagic != SignedMagic
  {
    assert EncodedMagic[23] != SignedMagic[23];
  }

  /** A signature line is read back as it was exactly when it is line-safe. */
  lemma {:induction false} SignatureLine(signature: string, body: string)
    requires signature != ""
    ensures var bytes := SignedMagic + Narrow(signature) + "\n" + body;
      var end := LineEnd(bytes, MagicLength);
      end < |bytes| && (bytes[MagicLength..end] == signature && AllText(signature) <==> LineSafe(signature)) &&
      (LineSafe(signature) ==> end == MagicLength + |signature|)
  {
    var bytes := SignedMagic + Narrow(signature) + "\n" + body;
    var end := LineEnd(bytes, MagicLength);
    assert bytes[MagicLength + |signature|] == '\n';
    if LineSafe(signature) {
      SafeLine(bytes, signature, body);
    }
  }

  lemma {:induction false} SafeLine(bytes: string, signature: string, body: string)
    requires LineSafe(signature) && bytes == SignedMagic + Narrow(signature) + "\n" + body
    ensures |bytes| > MagicLength + |signature| && LineEnd(bytes, MagicLength) == MagicLength + |signature|
    ensures bytes[MagicLength..MagicLength + |signature|] == signature
  {
    NarrowIsSame(signature);
    assert bytes[MagicLength + |signature|] == '\n';
    assert bytes[MagicLength..MagicLength + |signature|] == signature;
    forall i | MagicLength <= i < MagicLength + |signature| ensures bytes[i] != '\n' {
      assert bytes[i] == signature[i - MagicLength];
    }
  }

  lemma {:induction false} NarrowIsSame(s: string)
    requires LineSafe(s)
    ensures Narrow(s) == s
  {
  }

  /** What was saved is read back as it was exactly when the block holds no NUL and the signature is line-safe. */
  lemma {:induction false} BlockRoundTrip(b: Block)
    requires Saved(b).Ok?
    ensures ReadBack(Saved(b).value) == Ok(b) <==> AllText(b.block) && LineSafe(b.signature)
  {
    var bytes := Saved(b).value;
    SavedStartsWithMagic(b);
    MagicsDiffer();
    if b.signature == "" {
      assert bytes[MagicLength..] == b.block;
    } else {
      assert bytes == SignedMagic + Narrow(b.signature) + "\n" + b.block;
      SignatureLine(b.signature, b.block);
      var end := LineEnd(bytes, MagicLength);
      if LineSafe(b.signature) {
        assert bytes[end + 1..] == b.block;
      }
    }
  }

  /** A block with a NUL is saved, and is refused when it is read. */
  lemma {:induction false} NulIsNotReadBack(b: Block)
    requires b.block == "\0" && b.signature == ""
    ensures Saved(b).Ok? && ReadBack(Saved(b).value) == Err(BadEncoding)
  {
    var bytes := Saved(b).value;
    SavedStartsWithMagic(b);
    assert bytes[MagicLength..] == b.block && !IsText(b.block[0]);
  }
}
