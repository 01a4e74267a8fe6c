/** The session's temp directory as a map from file path to size. */
module TempStorage {

  ghost function TotalBytes(files: map<string, nat>): nat
    decreases |files|
  {
    if files == map[] then 0
    else
      var path :| path in files;
      files[path] + TotalBytes(files - {path})
  }

  // The total does not depend on the order in which the files are counted.
  lemma {:induction false} TotalWithout(files: map<string, nat>, path: string)
    requires path in files
    ensures TotalBytes(files) == files[path] + TotalBytes(files - {path})
    decreases |files|
  {
    var first :| path in files && first in files
                 && TotalBytes(files) == files[first] + TotalBytes(files - {first});
    if first != path {
      TotalWithout(files - {first}, path);
      TotalWithout(files - {path}, first);
      assert files - {first} - {path} == files - {path} - {first};
    }
  }

  // What at most one file within a limit adds up to.
  lemma TotalOfAtMostOne(files: map<string, nat>, limit: nat)
    requires |files| <= 1
    requires forall path :: path in files ==> files[path] <= limit
    ensures TotalBytes(files) <= limit
  {
    if files != map[] {
      var path :| path in files;
      TotalWithout(files, path);
      assert |files - {path}| == 0;
    }
  }

  class TempDirectory {
    var files: map<string, nat>

    // The most files, and the most bytes, the directory ever held after a write.
    ghost var peakFiles: nat
    ghost var peakBytes: nat

    // How many deletions failed so far.
    ghost var failedDeletes: nat

    constructor ()
      ensures files == map[] && peakFiles == 0 && peakBytes == 0 && failedDeletes == 0
    {
      files := map[];
      peakFiles, peakBytes, failedDeletes := 0, 0, 0;
    }

    // As long as deletions succeed the directory never held more than one file of a given limit.
    ghost predicate OneFileSoFar(limit: nat)
      reads `failedDeletes, `peakFiles, `peakBytes
    {
      failedDeletes == 0 ==> peakFiles <= 1 && peakBytes <= limit
    }

    method CountBytes() returns (total: nat)
      ensures total == TotalBytes(files)
    {
      total := 0;
      var left := files;
      while left != map[]
        invariant left.Keys <= files.Keys
        invariant total + TotalBytes(left) == TotalBytes(files)
        decreases |left|
      {
        var path :| path in left;
        TotalWithout(left, path);
        total := total + left[path];
        left := left - {path};
      }
    }

    // Replace any file of that name; on an error neither the old nor the new one remains.
    method Write(path: string, size: nat) returns (written: bool)
      modifies `files, `peakFiles, `peakBytes
      ensures files == if written then old(files)[path := size] else old(files) - {path}
      ensures peakFiles == (if written && |files| > old(peakFiles) then |files| else old(peakFiles))
      ensures peakBytes == (if written && TotalBytes(files) > old(peakBytes) then TotalBytes(files) else old(peakBytes))
    {
      written := *;
      if written {
        files := files[path := size];
        peakFiles := if |files| > peakFiles then |files| else peakFiles;
        peakBytes := if TotalBytes(files) > peakBytes then TotalBytes(files) else peakBytes;
      } else {
        files := files - {path};
      }
    }

    // Delete a file if it is there; an error leaves it in place.
    method Delete(path: string) returns (succeeded: bool)
      modifies `files, `failedDeletes
      ensures files == if succeeded then old(files) - {path} else old(files)
      ensures failedDeletes == old(failedDeletes) + if succeeded then 0 else 1
    {
      succeeded := *;
      if succeeded {
        files := files - {path};
      } else {
        failedDeletes := failedDeletes + 1;
      }
    }

    // Remove the directory's contents, ignoring errors: some files may stay.
    method Clear() returns (emptied: bool)
      modifies `files, `failedDeletes
      ensures emptied <==> files == map[]
      ensures failedDeletes == old(failedDeletes) + if emptied then 0 else 1
      ensures forall path :: path in files ==> path in old(files) && files[path] == old(files)[path]
    {
      var stuck: set<string> := *;
      files := map path | path in files && path in stuck :: files[path];
      emptied := files == map[];
      failedDeletes := failedDeletes + if emptied then 0 else 1;
    }
  }
}
