/** An upload that completes with a file that matches neither its piece hash nor its announced checksum. */
module UploadWitness {
  import opened Base
  import opened BlockMarks
  import opened BlockSizes
  import opened Bitmaps
  import opened UploadSpec
  import opened UploadFiles
  import opened UploadPieces
  import opened Uploads

  /** One block per byte, and a file of one byte. */
  lemma OneByte(x: Bytes)
    requires |x| == 1
    ensures BlockCountFor(1, 1) == 1 && ValidBlockChunk(0, 1, 1, 1)
    ensures FirstBlock(0, 1) == 0 && LastBlock(0, 1, 1) == 0 && BlocksIn(1, 1) == 1
    ensures PieceOf(x, 0, 1) == x
  {
    assert 0 * 1 + 1 <= |x|;
  }

  lemma FirstPieceOk(p: Pieces, was: seq<bool>, x: Bytes)
    requires p.bs == 1 && |x| == 1 && |was| == 1 && |p.hashes| == 1 && (was[0] || p.hash(x) == p.hashes[0])
    ensures PiecesOk(p, was, x, 0, 1)
  {
    OneByte(x);
    assert PieceOk(p, was, x, 0, 0);
  }

  /** A file of one byte does not match a single piece hash it does not have. */
  lemma OneByteMismatch(p: Pieces, y: Bytes)
    requires p.bs == 1 && |y| == 1 && |p.hashes| == 1 && p.hash(y) != p.hashes[0]
    ensures !FileMatches(p, y)
  {
    assert BlockAt(y, 0, 1) == y;
    assert !BlockMatches(p, y, 0);
  }

  /**
   The block is sent with the bytes that match, and then again with others. The
   second chunk is accepted without a check, and so is the file: it matches neither
   the session's piece hashes nor the checksum it was begun with.
   */
  method ReplacedBlockCompletes(hash: Bytes -> nat, x: Bytes, y: Bytes)
    returns (s: AlignedSession, first: Result<(), UploadError>, second: Result<(), UploadError>,
             file: Result<Bytes, UploadError>)
    requires |x| == |y| == 1 && hash(x) != hash(y)
    ensures s.Valid() && s.hash == hash && s.pieces == [hash(x)] && s.announced == Some(hash(x))
    ensures first == Ok(()) && second == Ok(()) && file == Ok(y)
    ensures !s.Intact() && !FileMatches(s.PieceHashes(), file.value)
    ensures Some(s.hash(file.value)) != s.announced
  {
    OneByte(x);
    OneByte(y);
    s := new AlignedSession(1, 1, [hash(x)], hash, Some(hash(x)));
    FirstPieceOk(s.PieceHashes(), s.verified.Marks(), x);
    first := s.WriteVerified(0, x, false, None, Transfer(x, 1, false));
    assert s.verified.Marks()[0] && s.bitmap.Marks()[0];
    FirstPieceOk(s.PieceHashes(), s.verified.Marks(), y);
    second := s.WriteVerified(0, y, false, None, Transfer(y, 1, false));
    assert s.verified.Marks()[0] && s.bitmap.Marks()[0];
    file := s.Complete();
    assert file.Ok? && file.value[0] == y[0];
    assert file.value == y;
    OneByteMismatch(s.PieceHashes(), y);
  }
}
