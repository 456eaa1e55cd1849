/**
  The file writes of scripts/downloadResumes.js and scripts/downloadResumesFlat.js, on a map
  from paths to contents: `ensureCsvHeader` (create the audit CSV with its header unless it
  exists), `appendFile` of a CSV line, and the write stream `downloadTo` fills.
*/
module Files {

  /** `fs.writeFileSync(path, header)` only when `!fs.existsSync(path)`. */
  function WithHeader(files: map<string, string>, path: string, header: string): (r: map<string, string>)
    ensures path in r && r.Keys == files.Keys + {path}
  {
    if path in files then files else files[path := header]
  }

  /** `fsp.appendFile(path, text)`: creates the file when missing, else adds at its end. */
  function Appended(files: map<string, string>, path: string, text: string): (r: map<string, string>)
    ensures path in r && r.Keys == files.Keys + {path}
  {
    files[path := (if path in files then files[path] else "") + text]
  }

  /** Every file of `before` is still there and its old contents are a prefix of its new ones. */
  predicate Grows(before: map<string, string>, after: map<string, string>) {
    forall p :: p in before ==> p in after && before[p] <= after[p]
  }

  /** Writing the header twice is writing it once. */
  lemma HeaderIdempotent(files: map<string, string>, path: string, header: string)
    ensures WithHeader(WithHeader(files, path, header), path, header) == WithHeader(files, path, header)
  {
  }

  /** `ensureCsvHeader` never truncates or changes a file; a new audit file holds exactly the header. */
  lemma HeaderNeverTruncates(files: map<string, string>, path: string, header: string)
    ensures Grows(files, WithHeader(files, path, header))
    ensures path in files ==> WithHeader(files, path, header) == files
    ensures path !in files ==> WithHeader(files, path, header)[path] == header
  {
  }

  /** Appending changes only the one file, and only by adding `text` at its end. */
  lemma AppendOnlyExtends(files: map<string, string>, path: string, text: string)
    ensures Grows(files, Appended(files, path, text))
    ensures path in files ==> Appended(files, path, text)[path] == files[path] + text
    ensures forall q :: q in files && q != path ==> Appended(files, path, text)[q] == files[q]
  {
  }

  /** Appending after the header: the file is the header (or what was there), then the text. */
  lemma HeaderThenAppend(files: map<string, string>, path: string, header: string, text: string)
    ensures Appended(WithHeader(files, path, header), path, text)[path]
      == (if path in files then files[path] else header) + text
  {
  }

  /** The files the scripts see. */
  class Disk {
    var files: map<string, string>

    constructor (initial: map<string, string>)
      ensures files == initial
    {
      files := initial;
    }

    /** `ensureCsvHeader()`: the audit CSV gets the header only when it does not exist yet. */
    method EnsureCsvHeader(path: string, header: string)
      modifies this
      ensures files == WithHeader(old(files), path, header)
    {
      if path !in files {
        files := files[path := header];
      }
    }

    /** `fsp.appendFile(path, text, 'utf8')`. */
    method AppendFile(path: string, text: string)
      modifies this
      ensures files == Appended(old(files), path, text)
    {
      var current := if path in files then files[path] else "";
      files := files[path := current + text];
    }

    /** `fs.createWriteStream(path)` piped the whole body: the file is replaced by it. */
    method WriteFile(path: string, body: string)
      modifies this
      ensures files == old(files)[path := body]
    {
      files := files[path := body];
    }
  }
}
