/** The two folders both web variants keep on disk, and the way they name the files
    of one upload: the saved PDF `{file_id}_{name}` in the upload folder and the
    text `{file_id}_{stem}.txt` in the output folder. */
module Storage {
  import opened Common
  import opened Strings

  type Bytes = seq<bv8>

  /** The upload folder (`uploads/`) and the output folder (`outputs/`), by file name. */
  class Folders {
    var uploads: map<string, Bytes>
    var outputs: map<string, string>

    constructor (uploads: map<string, Bytes>, outputs: map<string, string>)
      ensures this.uploads == uploads && this.outputs == outputs
    {
      this.uploads := uploads;
      this.outputs := outputs;
    }
  }

  /** `f"{file_id}_{name}"`: the name the uploaded PDF is saved under. It begins with
      the upload id and an underscore, so a cleanup by that id finds it, and the
      client's name follows unchanged. */
  function UploadName(fileId: string, name: string): (r: string)
    ensures StartsWith(r, fileId + "_") && r[|fileId| + 1..] == name
  {
    ConcatParts(fileId + "_", name, []);
    fileId + "_" + name
  }

  /** `f"{file_id}_{name.rsplit('.', 1)[0]}.txt"`: the name the text is written to. It
      begins with the upload id and an underscore, and is always a `.txt` file; a name
      without a dot is kept whole, so the text is the upload name followed by `.txt`. */
  function OutputName(fileId: string, name: string): (r: string)
    ensures StartsWith(r, fileId + "_") && EndsWith(r, ".txt")
    ensures '.' !in name ==> r == UploadName(fileId, name) + ".txt"
  {
    ConcatParts(fileId + "_", RSplitHead(name, '.'), ".txt");
    fileId + "_" + RSplitHead(name, '.') + ".txt"
  }

  /** The output name is the upload name with the last extension, dot included,
      replaced by `.txt`. */
  lemma OutputNameSwapsExtension(fileId: string, name: string)
    requires '.' in name
    ensures var upload := UploadName(fileId, name);
      |RSplitTail(name, '.')| + 1 <= |upload|
      && OutputName(fileId, name) == upload[..|upload| - |RSplitTail(name, '.')| - 1] + ".txt"
  {
    var i := LastIndexOf(name, '.').value;
    var upload := UploadName(fileId, name);
    assert |RSplitTail(name, '.')| + 1 == |name| - i;
    assert upload[..|upload| - (|name| - i)] == fileId + "_" + name[..i];
  }
}
