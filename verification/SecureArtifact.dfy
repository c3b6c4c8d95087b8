/** include/SecureArtifact.hpp: publishing a file under a name that must be new. */
module SecureArtifact {
  import opened Basics
  import opened Bytes

  /** How linkat answers for a free name: it works, the device or /proc is in the
      way (EXDEV, ENOENT), or any other error. */
  datatype Link = Works | CrossDevice | Refused

  /** The outcomes of the remaining system calls. `written` counts the bytes the
      write to the anonymous file takes; in the fallback copy `readable` bytes
      arrive before a read error and the destination takes `accepted`. */
  datatype Faults = Faults(dirOpens: bool, tmpOpens: bool, written: nat, syncs: bool, link: Link,
                           seeks: bool, readable: nat, accepted: nat, destSyncs: bool)

  datatype Outcome = Outcome(files: map<Bytes, Bytes>, ok: bool)

  /** The copy leaves what it got through behind, whole or not. */
  function Copied(content: Bytes, f: Faults): Bytes {
    content[..Min(|content|, Min(f.readable, f.accepted))]
  }

  function Published(files: map<Bytes, Bytes>, name: Bytes, content: Bytes, f: Faults): Outcome {
    if !f.dirOpens || !f.tmpOpens || f.written < |content| || !f.syncs || name in files || f.link.Refused?
    then Outcome(files, false)
    else if f.link.Works? then Outcome(files[name := content], true)
    else if !f.seeks then Outcome(files[name := []], false)
    else Outcome(files[name := Copied(content, f)],
                 f.readable >= |content| && f.accepted >= |content| && f.destSyncs)
  }

  /** Success means the name was free and now holds exactly the content; whatever
      happens, no file that was there is touched and no other name appears. */
  lemma NeverOverwrites(files: map<Bytes, Bytes>, name: Bytes, content: Bytes, f: Faults)
    ensures var o := Published(files, name, content, f);
      && (o.ok ==> name !in files && o.files == files[name := content])
      && (forall n :: n in files ==> n in o.files && o.files[n] == files[n])
      && (forall n :: n in o.files && n != name ==> n in files)
      && (name in o.files && name !in files ==> o.files[name] <= content)
  {
    if f.readable >= |content| && f.accepted >= |content| {
      WholeSlice(content);
    }
  }

  /** When publication succeeds, and what a failure leaves: nothing, or under a free name
      the part of a copy across devices that got through. */
  lemma PublishesExactly(files: map<Bytes, Bytes>, name: Bytes, content: Bytes, f: Faults)
    ensures var o := Published(files, name, content, f);
      var prepared := f.dirOpens && f.tmpOpens && f.written >= |content| && f.syncs && name !in files;
      var copies := f.seeks && f.readable >= |content| && f.accepted >= |content| && f.destSyncs;
      var n := if f.seeks then Min(|content|, Min(f.readable, f.accepted)) else 0;
      && (o.ok <==> prepared && (f.link.Works? || (f.link.CrossDevice? && copies)))
      && (o.ok ==> o.files == files[name := content])
      && (!o.ok ==> o.files == if prepared && f.link.CrossDevice? then files[name := content[..n]] else files)
  {
    if f.readable >= |content| && f.accepted >= |content| {
      WholeSlice(content);
    }
    assert content[..0] == [];
  }

  const BUFFER: nat := 4096

  class Directory {
    var files: map<Bytes, Bytes>

    constructor ()
      ensures files == map[]
    {
      files := map[];
    }

    method WriteSecurely(name: Bytes, content: Bytes, f: Faults) returns (ok: bool)
      modifies this
      ensures Outcome(files, ok) == Published(old(files), name, content, f)
    {
      if !f.dirOpens || !f.tmpOpens {
        return false;
      }
      if f.written < |content| || !f.syncs {
        return false;
      }
      if f.link.Works? && name !in files {
        files := files[name := content];
        return true;
      }
      // linkat answers EEXIST for a taken name, and O_EXCL refuses it as well
      if !f.link.CrossDevice? || name in files {
        return false;
      }
      files := files[name := []];
      if !f.seeks {
        return false;
      }
      var whole := CopyLoop(name, content, f);
      ok := whole && f.destSyncs;
    }

    /** The chunked read and write loop into the new file. */
    method CopyLoop(name: Bytes, content: Bytes, f: Faults) returns (whole: bool)
      requires name in files && files[name] == []
      modifies this
      ensures files == old(files)[name := Copied(content, f)]
      ensures whole <==> f.readable >= |content| && f.accepted >= |content|
    {
      var pos := 0;
      var limit := Min(|content|, f.readable);
      assert files == files[name := content[..0]];
      while pos < limit
        invariant pos <= limit && pos <= f.accepted
        invariant files == old(files)[name := content[..pos]]
      {
        var bytesRead := Min(BUFFER, limit - pos);
        var bytesWritten := Min(bytesRead, f.accepted - pos);
        assert content[..pos] + content[pos..pos + bytesWritten] == content[..pos + bytesWritten];
        files := files[name := files[name] + content[pos..pos + bytesWritten]];
        pos := pos + bytesWritten;
        if bytesWritten != bytesRead {
          return false;
        }
      }
      whole := f.readable >= |content|;
    }
  }
}
