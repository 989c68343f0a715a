/**
 * Writing one file to the storage card as it streams past, with the facial image split off into a
 * second file from an offset that is only learnt on the way. Files are append-only byte sequences.
 */
module Export {
  import opened Bytes
  import opened Errors

  /** The storage card: how much of its k-th write, of n bytes, it takes, and whether its k-th file opens. */
  datatype Medium = Medium(accepts: (nat, nat) -> nat, opens: nat -> bool) {
    function Taken(k: nat, n: nat): nat {
      Min(accepts(k, n), n)
    }
  }

  /** A storage card that takes everything. */
  ghost predicate Roomy(m: Medium) {
    (forall k :: m.opens(k)) && (forall k, n :: m.accepts(k, n) >= n)
  }

  /** The bytes from `at` on, none when there are not that many. */
  function From(s: Bytes, at: nat): Bytes {
    if at <= |s| then s[at..] else []
  }

  /** The part of a chunk a window from `at` on takes, when `done` bytes went before it. */
  function Window(data: Bytes, done: nat, at: nat): Bytes {
    if done + |data| > at then data[if done < at then at - done else 0..] else []
  }

  /** Cutting the window out chunk by chunk is cutting it out of the whole. */
  lemma WindowOfStream(stream: Bytes, data: Bytes, at: nat, armedAt: nat)
    requires armedAt <= |stream|
    ensures From(stream + data, Max(at, armedAt)) == From(stream, Max(at, armedAt)) + Window(data, |stream|, at)
  {
    var start := Max(at, armedAt);
    if start <= |stream| {
      assert (stream + data)[start..] == stream[start..] + data;
      assert at == |stream| ==> data[0..] == data;
    } else if start <= |stream + data| {
      assert (stream + data)[start..] == data[start - |stream|..];
      assert start == |stream + data| ==> data[start - |stream|..] == [];
    }
  }

  lemma AppendedPart(a: Bytes, b: Bytes, k: nat)
    requires k <= |b|
    ensures a + b[..k] <= a + b && a <= a + b
  {
    assert a + b[..k] == (a + b)[..|a| + k];
  }

  lemma NothingTaken(m: Medium)
    ensures Roomy(m) ==> forall k, n :: m.Taken(k, n) == n
  {
  }

  class Export {
    const medium: Medium
    var writes: nat
    var openings: nat
    var fileOpen: bool
    var file: Bytes
    var imageOpen: bool
    var image: Bytes
    var failed: bool
    var imageArmed: bool
    var imageOffset: nat
    var offset: nat
    /** Everything handed over since the file was begun, and how much of it before the image was armed. */
    ghost var stream: Bytes
    ghost var armedAt: nat

    /**
     * The raw file is the stream, and the image is the stream from where it was armed or where it
     * starts, whichever is later; after a failed write both still are prefixes of that.
     */
    ghost predicate Valid()
      reads this
    {
      && (!failed ==> offset == |stream|)
      && armedAt <= |stream| && (imageOpen ==> imageArmed)
      && (fileOpen ==> file <= stream && (!failed ==> file == stream))
      && (imageOpen ==> image <= From(stream, Max(imageOffset, armedAt)))
      && (imageOpen && fileOpen && !failed ==> image == From(stream, Max(imageOffset, armedAt)))
    }

    /** Still open as it was, and failed only if it was before or the medium fell short. */
    ghost predicate Carries(open: bool, failedBefore: bool)
      reads this
    {
      fileOpen == open && (failedBefore ==> failed) && (Roomy(medium) ==> failed == failedBefore)
    }

    /** The part of a chunk that goes to the image file. */
    function ImagePart(data: Bytes): Bytes
      reads this
    {
      if imageOpen then Window(data, offset, imageOffset) else []
    }

    /** Nothing open; `failed` from the start when there is nowhere to export to. */
    constructor (medium: Medium, failed: bool)
      ensures Valid() && this.medium == medium && this.failed == failed && !fileOpen && !imageArmed && stream == []
      ensures writes == openings == 0
    {
      this.medium, this.failed := medium, failed;
      writes, openings := 0, 0;
      fileOpen, file, imageOpen, image := false, [], false, [];
      imageArmed, imageOffset, offset, stream, armedAt := false, 0, 0, [], 0;
    }

    method EndFile()
      modifies this
      ensures Valid() && !fileOpen && !imageOpen && !imageArmed && stream == []
      ensures file == old(file) && image == old(image) && failed == old(failed)
      ensures writes == old(writes) && openings == old(openings)
    {
      fileOpen, imageOpen, imageArmed := false, false, false;
      imageOffset, offset, stream, armedAt := 0, 0, [], 0;
    }

    method BeginFile() returns (e: Option<Error>)
      modifies this
      ensures Valid() && stream == [] && !imageArmed && !imageOpen
      ensures fileOpen <==> !old(failed) && medium.opens(old(openings))
      ensures (failed <==> !fileOpen) && (old(failed) ==> failed) && (Roomy(medium) ==> failed == old(failed))
      ensures e == if failed && !old(failed) then Some(Storage) else None
      ensures openings == old(openings) + (if old(failed) then 0 else 1) && writes == old(writes)
      ensures fileOpen ==> file == []
    {
      EndFile();
      if failed {
        return None;
      }
      fileOpen := medium.opens(openings);
      openings := openings + 1;
      if !fileOpen {
        failed := true;
        return Some(Storage);
      }
      file := [];
      return None;
    }

    /** One storage write: how much of `data` was taken. */
    method Put(data: Bytes) returns (taken: nat)
      modifies `writes
      ensures taken == medium.Taken(old(writes), |data|) && writes == old(writes) + 1
    {
      taken := Min(medium.accepts(writes, |data|), |data|);
      writes := writes + 1;
    }

    /** `data` went to the raw file and, when that was whole, `part` to the image: each as far as it was taken. */
    ghost predicate Stored(data: Bytes, part: Bytes, k: nat, fileBefore: Bytes, imageBefore: Bytes, whole: bool)
      reads this
    {
      var taken, cut := medium.Taken(k, |data|), medium.Taken(k + 1, |part|);
      && file == fileBefore + data[..taken]
      && if taken < |data| || part == [] then
           whole == (taken == |data|) && image == imageBefore && writes == k + 1
         else
           whole == (cut == |part|) && image == imageBefore + part[..cut] && writes == k + 2
    }

    /** A chunk to the raw file, and what belongs to the image to that; false when either is cut short. */
    method PutBoth(data: Bytes) returns (whole: bool)
      requires data != []
      modifies `writes, `file, `image
      ensures Stored(data, old(ImagePart(data)), old(writes), old(file), old(image), whole)
    {
      var taken := Put(data);
      file := file + data[..taken];
      if taken != |data| {
        return false;
      }
      if imageOpen && offset + |data| > imageOffset {
        var skip := if offset < imageOffset then imageOffset - offset else 0;
        taken := Put(data[skip..]);
        image := image + data[skip..][..taken];
        return taken == |data| - skip;
      }
      return true;
    }

    /** A chunk into the files that are open; a shortfall is on record from then on. */
    method Store(data: Bytes) returns (whole: bool)
      requires Valid() && !failed && fileOpen && data != []
      modifies this
      ensures Valid() && Carries(true, false) && failed == !whole
      ensures stream == old(stream) + data
      ensures imageArmed == old(imageArmed) && imageOpen == old(imageOpen)
      ensures imageOffset == old(imageOffset) && armedAt == old(armedAt) && openings == old(openings)
      ensures Stored(data, old(ImagePart(data)), old(writes), old(file), old(image), whole)
    {
      hide From, Window, Roomy;
      WindowOfStream(stream, data, imageOffset, armedAt);
      AppendedPart(From(stream, Max(imageOffset, armedAt)), Window(data, |stream|, imageOffset), 0);
      NothingTaken(medium);
      stream := stream + data;
      ghost var part, written, cut := ImagePart(data), file, image;
      whole := PutBoth(data);
      AppendedPart(written, data, |file| - |written|);
      AppendedPart(cut, part, |image| - |cut|);
      if whole {
        offset := offset + |data|;
      } else {
        failed := true;
      }
    }

    /** One chunk of the stream. It fails exactly when one of the two writes is not taken whole. */
    method Write(data: Bytes) returns (e: Option<Error>)
      requires Valid()
      modifies this
      ensures Valid() && Carries(old(fileOpen), old(failed))
      ensures stream == old(stream) + data
      ensures imageArmed == old(imageArmed) && imageOpen == old(imageOpen)
      ensures imageOffset == old(imageOffset) && armedAt == old(armedAt) && openings == old(openings)
      ensures old(failed) || !old(fileOpen) || data == [] ==>
        failed == old(failed) && file == old(file) && image == old(image) && writes == old(writes)
      ensures !old(failed) && old(fileOpen) && data != [] ==>
        Stored(data, old(ImagePart(data)), old(writes), old(file), old(image), !failed)
      ensures e == if failed && !old(failed) then Some(Storage) else None
    {
      hide From, Window, Roomy, Stored;
      if failed || !fileOpen || data == [] {
        WindowOfStream(stream, data, imageOffset, armedAt);
        AppendedPart(From(stream, Max(imageOffset, armedAt)), Window(data, |stream|, imageOffset), 0);
        AppendedPart(stream, data, 0);
        assert data == [] ==> stream + data == stream;
        stream := stream + data;
        offset := offset + |data|;
        return None;
      }
      var whole := Store(data);
      return if whole then None else Some(Storage);
    }

    /** Open the image file; only the first call for a file has any effect. */
    method ArmImage(at: nat)
      requires Valid()
      modifies this
      ensures Valid()
      ensures stream == old(stream) && file == old(file) && failed == old(failed) && fileOpen == old(fileOpen)
      ensures imageArmed <==> old(imageArmed) || !failed
      ensures !old(imageArmed) && imageArmed ==> imageOffset == at && armedAt == |stream|
      ensures old(imageArmed) ==>
        imageOffset == old(imageOffset) && armedAt == old(armedAt) && imageOpen == old(imageOpen) && image == old(image)
      ensures !imageArmed ==> imageOpen == old(imageOpen)
      ensures !old(imageArmed) && imageArmed ==> imageOpen == medium.opens(old(openings)) && (imageOpen ==> image == [])
      ensures openings == old(openings) + (if imageArmed && !old(imageArmed) then 1 else 0) && writes == old(writes)
    {
      if failed || imageArmed {
        return;
      }
      imageArmed, imageOffset, armedAt := true, at, |stream|;
      imageOpen := medium.opens(openings);
      openings := openings + 1;
      if imageOpen {
        image := [];
      }
    }
  }
}
