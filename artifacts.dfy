/** The screenshot directory: the file-name convention the capture writes and the comparator
    reads, and the directory itself as a mutable map from file name to PNG bytes. */
module Artifacts {
  import opened Bytes
  import opened Text

  /** `${objectApiName}.${recordId}.${upgradeState}.png`. */
  function ArtifactFilename(objectApiName: string, recordId: string, upgradeState: string): (name: string)
    ensures StartsWith(name, objectApiName + ".") && EndsWith(name, "." + upgradeState + ".png")
  {
    objectApiName + "." + recordId + "." + upgradeState + ".png"
  }

  /** When none of the three parts contains a dot, the name splits back into them. */
  lemma ArtifactFilenameFields(objectApiName: string, recordId: string, upgradeState: string)
    requires '.' !in objectApiName && '.' !in recordId && '.' !in upgradeState
    ensures SplitOn(ArtifactFilename(objectApiName, recordId, upgradeState), '.') == [objectApiName, recordId, upgradeState, "png"]
  {
    var name := ArtifactFilename(objectApiName, recordId, upgradeState);
    SplitOnNone("png", '.');
    SplitOnCons(upgradeState, '.', "png");
    assert upgradeState + "." + "png" == upgradeState + ['.'] + "png";
    SplitOnCons(recordId, '.', upgradeState + "." + "png");
    SplitOnCons(objectApiName, '.', recordId + "." + (upgradeState + "." + "png"));
    assert name == objectApiName + ['.'] + (recordId + ['.'] + (upgradeState + ['.'] + "png"));
  }

  /** Hence distinct dot-free (object, record, phase) triples name distinct files. */
  lemma ArtifactFilenameInjective(o1: string, r1: string, p1: string, o2: string, r2: string, p2: string)
    requires '.' !in o1 && '.' !in r1 && '.' !in p1 && '.' !in o2 && '.' !in r2 && '.' !in p2
    requires ArtifactFilename(o1, r1, p1) == ArtifactFilename(o2, r2, p2)
    ensures o1 == o2 && r1 == r2 && p1 == p2
  {
    ArtifactFilenameFields(o1, r1, p1);
    ArtifactFilenameFields(o2, r2, p2);
  }

  /** Names containing dots do collide: the convention relies on API names and ids without dots. */
  lemma ArtifactFilenameCollision()
    ensures ArtifactFilename("a.b", "c", "before") == ArtifactFilename("a", "b.c", "before")
  {
  }

  /** The screenshots directory, file name to contents. */
  class ArtifactStore {
    var files: map<string, seq<Byte>>

    constructor(files: map<string, seq<Byte>>)
      ensures this.files == files
    {
      this.files := files;
    }

    /** `page.screenshot({ path })`: creates or overwrites one file. */
    method Write(name: string, contents: seq<Byte>)
      modifies this
      ensures files == old(files)[name := contents]
    {
      files := files[name := contents];
    }
  }
}
