/**
 * The DocumentUpload component: the list of dropped files, grown by a drop and
 * shrunk by a "Remove" click, with the `onUpload` callback after each change.
 */
module DocumentUpload {

  /** A browser `File`; only its name is displayed, its bytes are opaque. */
  datatype File = File(name: string, bytes: seq<bv8>)

  /** `s.filter((_, i) => i !== index)`: every element but the one at `index`. */
  function RemoveAt<T>(s: seq<T>, index: nat): (r: seq<T>)
    ensures index < |s| ==> |r| == |s| - 1
    ensures index < |s| ==> forall j :: 0 <= j < index ==> r[j] == s[j]
    ensures index < |s| ==> forall j :: index <= j < |r| ==> r[j] == s[j + 1]
    ensures index >= |s| ==> r == s
  {
    if index < |s| then s[..index] + s[index + 1..] else s
  }

  /** Removal loses exactly the removed element: nothing is duplicated or invented. */
  lemma RemoveAtMultiset<T>(s: seq<T>, index: nat)
    requires index < |s|
    ensures multiset(RemoveAt(s, index)) + multiset{s[index]} == multiset(s)
  {
    assert s == s[..index] + [s[index]] + s[index + 1..];
  }

  /** Removing a file right after dropping it restores the earlier list. */
  lemma RemoveUndoesDrop<T>(s: seq<T>, x: T)
    ensures RemoveAt(s + [x], |s|) == s
  {
  }

  /** The `filter` itself, element by element. */
  method FilterOutIndex<T>(s: seq<T>, index: nat) returns (r: seq<T>)
    ensures r == RemoveAt(s, index)
  {
    r := [];
    var i := 0;
    while i < |s|
      invariant 0 <= i <= |s|
      invariant r == if i <= index then s[..i] else s[..index] + s[index + 1..i]
    {
      if i != index {
        r := r + [s[i]];
      }
      i := i + 1;
    }
    assert s[..|s|] == s;
  }

  class UploadList {
    var files: seq<File>

    /** `useState<File[]>([])`. */
    constructor ()
      ensures files == []
    {
      files := [];
    }

    /** `onDrop`: the accepted files go after the existing ones; `onUpload` gets only the new files. */
    method Drop(accepted: seq<File>) returns (uploaded: seq<File>)
      modifies this
      ensures files == old(files) + accepted
      ensures uploaded == accepted
    {
      files := files + accepted;
      uploaded := accepted;
    }

    /** "Remove" on row `index`: drop that file; `onUpload` gets the whole remaining list. */
    method Remove(index: nat) returns (uploaded: seq<File>)
      modifies this
      ensures files == RemoveAt(old(files), index)
      ensures uploaded == files
    {
      var newFiles := FilterOutIndex(files, index);
      files := newFiles;
      uploaded := newFiles;
    }
  }
}
