// Writing the temporary file of a Put (cache/disk/disk.go), which is where the
// request protocol's writing step and the blob writer meet.
module FileWriter {
  import opened Wrappers
  import opened Int64
  import opened Bytes
  import opened Names
  import opened Protocol
  import BlobWriter

  // Copy everything from r to f.
  method Copy(r: BlobWriter.Reader, f: File) returns (copied: Option<nat>)
    requires f.contents == [] && f.pos == 0
    modifies r, f
    ensures copied.Some? ==> !r.fails
    ensures !r.fails && !f.faulty ==> copied.Some?
    ensures copied.Some? ==> f.contents == old(r.rest) && copied.value == |f.contents|
  {
    var bs := r.rest;
    r.rest := [];
    if r.fails {
      return None;
    }
    var ok := f.Write(bs);
    return if ok then Some(|bs|) else None;
  }

  // It succeeds only if the writing step of a Put with that body does, and then
  // unless the disk fails, and leaves the file that the step leaves.
  method WriteAndCloseFile(cfg: Config, r: BlobWriter.Reader, kind: Kind, hash: string, size: int64, f: File)
    returns (sizeOnDisk: Option<nat>)
    requires f.contents == [] && f.pos == 0 && size >= 0
    modifies r, f
    ensures sizeOnDisk.Some? ==> WriteSucceeds(cfg, Put("", kind, hash, size, old(r.rest), r.fails))
    ensures WriteSucceeds(cfg, Put("", kind, hash, size, old(r.rest), r.fails)) && !f.faulty ==> sizeOnDisk.Some?
    ensures sizeOnDisk.Some? ==>
      && f.contents == StoredBytes(cfg, kind, Legacy(cfg, kind), old(r.rest))
      && sizeOnDisk.value == |f.contents|
  {
    if kind == CAS && cfg.mode != Identity {
      var written := BlobWriter.WriteAndClose(cfg.z, cfg.sha, r, f, hash, size);
      return if written.Ok? then Some(written.value) else None;
    }
    sizeOnDisk := Copy(r, f);
    if sizeOnDisk.Some? {
      if IsSizeMismatch(sizeOnDisk.value, size) {
        return None;
      }
      var ok := f.Finish();
      if !ok {
        return None;
      }
    }
  }
}
