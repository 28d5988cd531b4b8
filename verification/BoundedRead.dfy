/** Reading evidence files within byte caps, one by one and as a bundle. */
module BoundedRead {
  import opened Text

  type Byte = bv8

  const MAX_SAFE_INTEGER := 9007199254740991
  const MAX_EVIDENCE_FILE_BYTES := 1000000

  /** An open file: what is in it by the time it is read, the size reported when it was
      opened, and how many bytes more than one the k-th read would like to deliver. */
  datatype File = File(regular: bool, insideRoot: bool, size: int, bytes: seq<Byte>, eagerness: nat -> nat)

  datatype Error = InvalidSize | TooLarge | Grew | NotRegular | Escapes | AggregateTooLarge

  datatype Result<T> = Ok(value: T) | Err(error: Error)

  function Max(a: int, b: int): int {
    if a >= b then a else b
  }

  /** `readSync`: at most `length` bytes, none only at the end of the file. */
  function ReadCount(f: File, k: nat, position: nat, length: nat): nat
    requires position <= |f.bytes|
  {
    Min(Min(1 + f.eagerness(k), length), |f.bytes| - position)
  }

  predicate IsSafe(n: int) {
    0 <= n <= MAX_SAFE_INTEGER
  }

  /** A bounded read succeeds exactly for a file that holds no more than it reported, within
      the cap, and then yields all of it. */
  function BoundedContent(f: File, maximum: int): Result<seq<Byte>> {
    if !IsSafe(f.size) || !IsSafe(maximum) then Err(InvalidSize)
    else if f.size > maximum then Err(TooLarge)
    else if |f.bytes| > f.size then Err(Grew)
    else Ok(f.bytes)
  }

  /** `readBoundedRegularFileDescriptor`, for any pattern of short reads. */
  method ReadDescriptor(f: File, maximum: int) returns (r: Result<seq<Byte>>)
    ensures r == BoundedContent(f, maximum)
    ensures r.Ok? <==> 0 <= f.size <= maximum <= 9007199254740991 && |f.bytes| <= f.size
    ensures r.Ok? ==> r.value == f.bytes
  {
    if !IsSafe(f.size) || !IsSafe(maximum) {
      return Err(InvalidSize);
    }
    if f.size > maximum {
      return Err(TooLarge);
    }
    var content := new Byte[f.size](_ => 0);
    var offset, attempts := 0, 0;
    while offset < f.size
      invariant 0 <= offset <= f.size && offset <= |f.bytes|
      invariant content[..offset] == f.bytes[..offset]
      decreases f.size - offset
    {
      var bytesRead := ReadCount(f, attempts, offset, f.size - offset);
      attempts := attempts + 1;
      if bytesRead == 0 {
        break;
      }
      forall i | 0 <= i < bytesRead {
        content[offset + i] := f.bytes[offset + i];
      }
      assert forall i :: 0 <= i < offset + bytesRead ==> content[i] == f.bytes[i];
      offset := offset + bytesRead;
    }
    if ReadCount(f, attempts, offset, 1) != 0 {
      return Err(Grew);
    }
    assert f.bytes[..offset] == f.bytes;
    r := Ok(content[..offset]);
  }

  method ReadRegularFile(f: File, maximum: int) returns (r: Result<seq<Byte>>)
    ensures r == if !f.regular then Err(NotRegular) else BoundedContent(f, maximum)
  {
    if !f.regular {
      return Err(NotRegular);
    }
    r := ReadDescriptor(f, maximum);
  }

  function Total(files: seq<seq<Byte>>): nat {
    if files == [] then 0 else Total(files[..|files| - 1]) + |files[|files| - 1]|
  }

  /** The content of one manifest entry, given the bytes already taken. */
  function EntryContent(f: File, maximum: int, taken: nat): Result<seq<Byte>> {
    var remaining := maximum - taken;
    if !f.insideRoot then Err(Escapes)
    else if !f.regular then Err(NotRegular)
    else
      var content := BoundedContent(f, Min(MAX_EVIDENCE_FILE_BYTES, Max(remaining, 0)));
      if content == Err(TooLarge) && remaining < MAX_EVIDENCE_FILE_BYTES then Err(AggregateTooLarge) else content
  }

  function Bundle(entries: seq<File>, maximum: int): Result<seq<seq<Byte>>> {
    if entries == [] then Ok([])
    else
      var before := Bundle(entries[..|entries| - 1], maximum);
      if before.Err? then before
      else
        var content := EntryContent(entries[|entries| - 1], maximum, Total(before.value));
        if content.Err? then Err(content.error) else Ok(before.value + [content.value])
  }

  lemma TotalAppend(files: seq<seq<Byte>>, f: seq<Byte>)
    ensures Total(files + [f]) == Total(files) + |f|
  {
    assert (files + [f])[..|files|] == files;
  }

  lemma {:induction false} BundleFails(entries: seq<File>, maximum: int, n: nat)
    requires n <= |entries| && Bundle(entries[..n], maximum).Err?
    ensures Bundle(entries, maximum) == Bundle(entries[..n], maximum)
    decreases |entries| - n
  {
    if n < |entries| {
      assert entries[..n + 1][..n] == entries[..n];
      BundleFails(entries, maximum, n + 1);
    } else {
      assert entries[..n] == entries;
    }
  }

  /** `readAttributionEvidenceBundle` after its manifest was parsed: the running total never
      passes the aggregate maximum, so the check that follows each read never fires. */
  method ReadBundle(entries: seq<File>, maximum: int) returns (r: Result<seq<seq<Byte>>>)
    ensures !IsSafe(maximum) ==> r == Err(InvalidSize)
    ensures IsSafe(maximum) ==> r == Bundle(entries, maximum)
    ensures r.Ok? ==> Total(r.value) <= maximum
  {
    if !IsSafe(maximum) {
      return Err(InvalidSize);
    }
    var aggregateBytes := 0;
    var files: seq<seq<Byte>> := [];
    for i := 0 to |entries|
      invariant Bundle(entries[..i], maximum) == Ok(files)
      invariant aggregateBytes == Total(files) <= maximum
    {
      var f := entries[i];
      assert entries[..i + 1][..i] == entries[..i];
      if !f.insideRoot {
        BundleFails(entries, maximum, i + 1);
        return Err(Escapes);
      }
      var remaining := maximum - aggregateBytes;
      var content := ReadRegularFile(f, Min(MAX_EVIDENCE_FILE_BYTES, Max(remaining, 0)));
      if content.Err? {
        BundleFails(entries, maximum, i + 1);
        if remaining < MAX_EVIDENCE_FILE_BYTES && content.error == TooLarge {
          return Err(AggregateTooLarge);
        }
        return Err(content.error);
      }
      aggregateBytes := aggregateBytes + |content.value|;
      if aggregateBytes > maximum {
        assert false;
      }
      TotalAppend(files, content.value);
      files := files + [content.value];
    }
    assert entries[..|entries|] == entries;
    r := Ok(files);
  }

  /** An entry fits behind `taken` bytes: a regular file of the run directory that holds no
      more than it reports, reports at most a million bytes, and no more than is left. */
  predicate Fits(f: File, maximum: int, taken: nat) {
    && f.insideRoot && f.regular
    && |f.bytes| <= f.size <= 1000000
    && taken + f.size <= maximum
  }

  lemma EntryReadIff(f: File, maximum: int, taken: nat)
    requires IsSafe(maximum) && taken <= maximum
    ensures EntryContent(f, maximum, taken).Ok? <==> Fits(f, maximum, taken)
    ensures EntryContent(f, maximum, taken).Ok? ==> EntryContent(f, maximum, taken).value == f.bytes
  {
  }

  function Contents(entries: seq<File>): seq<seq<Byte>> {
    seq(|entries|, i requires 0 <= i < |entries| => entries[i].bytes)
  }

  predicate FitsAt(entries: seq<File>, maximum: int, i: nat)
    requires i < |entries|
  {
    Fits(entries[i], maximum, Total(Contents(entries[..i])))
  }

  predicate AllFit(entries: seq<File>, maximum: int) {
    forall i :: 0 <= i < |entries| ==> FitsAt(entries, maximum, i)
  }

  lemma AllFitFront(entries: seq<File>, maximum: int, n: nat)
    requires n == |entries| - 1
    ensures AllFit(entries, maximum) <==> AllFit(entries[..n], maximum) && FitsAt(entries, maximum, n)
  {
    forall i | 0 <= i < n
      ensures FitsAt(entries[..n], maximum, i) <==> FitsAt(entries, maximum, i)
    {
      assert entries[..n][..i] == entries[..i];
    }
  }

  /** A bundle is read exactly if every entry fits behind the contents of those before it. */
  lemma {:induction false} BundleReadIff(entries: seq<File>, maximum: int)
    requires IsSafe(maximum)
    ensures Bundle(entries, maximum).Ok? <==> AllFit(entries, maximum)
    ensures Bundle(entries, maximum).Ok? ==>
              Bundle(entries, maximum).value == Contents(entries) && Total(Contents(entries)) <= maximum
  {
    if entries == [] {
      assert Contents(entries) == [];
    } else {
      var n := |entries| - 1;
      BundleReadIff(entries[..n], maximum);
      AllFitFront(entries, maximum, n);
      var before := Contents(entries[..n]);
      if Bundle(entries[..n], maximum).Ok? {
        assert Contents(entries) == before + [entries[n].bytes];
        TotalAppend(before, entries[n].bytes);
        EntryReadIff(entries[n], maximum, Total(before));
      }
    }
  }

  /** A bundle that is read holds every entry's file whole, in manifest order, each within
      the cap of one file and all together within the aggregate maximum. */
  lemma {:induction false} BundleIsWhole(entries: seq<File>, maximum: int)
    requires 0 <= maximum && Bundle(entries, maximum).Ok?
    ensures var files := Bundle(entries, maximum).value;
            && |files| == |entries| && Total(files) <= maximum
            && forall i :: 0 <= i < |entries| ==>
                 files[i] == entries[i].bytes && |files[i]| <= MAX_EVIDENCE_FILE_BYTES && entries[i].insideRoot
                     && entries[i].regular
  {
    if entries != [] {
      var n := |entries| - 1;
      BundleIsWhole(entries[..n], maximum);
      var before := Bundle(entries[..n], maximum).value;
      TotalAppend(before, entries[n].bytes);
      assert forall i :: 0 <= i < n ==> entries[..n][i] == entries[i];
    }
  }
}
