/**
  The naming helpers of scripts/downloadResumes.js and scripts/downloadResumesFlat.js:
  `pad2`, `sanitize`, the file-extension guesses and their fallback chain, and the
  destination paths of the nested (`YYYY/MM/<job>/<name>.<ext>`) and flat
  (`flat/<name>_<candidateId>.<ext>`) layouts.
*/
module Naming {
  import opened Wrappers
  import opened Js

  // ---------------------------------------------------------------------------------
  // pad2

  /** `s.padStart(2, '0')`. */
  function PadStart2(s: string): string {
    if |s| >= 2 then s else seq(2 - |s|, _ => '0') + s
  }

  /** `pad2(n)`: `String(n).padStart(2, '0')`. */
  function Pad2(n: nat): string {
    PadStart2(NatToString(n))
  }

  /** Below 100, `pad2` gives exactly two digits that read back as `n`; from 100 on, the plain decimal. */
  lemma Pad2Digits(n: nat)
    ensures n < 100 ==> |Pad2(n)| == 2 && (forall k :: 0 <= k < 2 ==> IsDigit(Pad2(n)[k])) && DecimalValue(Pad2(n)) == n
    ensures n >= 100 ==> Pad2(n) == NatToString(n)
  {
    DecimalRoundTrip(n);
    var s := NatToString(n);
    if n < 10 {
      var z := seq(2 - |s|, _ => '0');
      DecimalLeadingZeros(z, s);
    } else if n < 100 {
      assert NatToString(n / 10) == [DigitChar(n / 10)];
    } else {
      assert |NatToString(n / 10)| >= 2;
    }
  }

  // ---------------------------------------------------------------------------------
  // sanitize

  /** The characters `sanitize` deletes: ``<>:"/\|?*`` and U+0000 to U+001F. */
  predicate Forbidden(c: char) {
    c == '<' || c == '>' || c == ':' || c == '"' || c == '/' || c == '\\' || c == '|' || c == '?' || c == '*'
    || c < '\U{0020}'
  }

  /** `.replace(/[<>:"/\\|?*\x00-\x1F]/g, '')`. */
  function RemoveForbidden(s: string): (r: string)
    ensures NoForbidden(r)
    ensures forall c :: c in r ==> c in s
    ensures NoForbidden(s) ==> r == s
  {
    if s == [] then []
    else (if Forbidden(s[0]) then [] else [s[0]]) + RemoveForbidden(s[1..])
  }

  /** Removal works piece by piece: cleaning a concatenation cleans each part. */
  lemma {:induction false} RemoveForbiddenAppend(a: string, b: string)
    ensures RemoveForbidden(a + b) == RemoveForbidden(a) + RemoveForbidden(b)
  {
    if a == [] {
      assert a + b == b;
    } else {
      assert (a + b)[0] == a[0] && (a + b)[1..] == a[1..] + b;
      RemoveForbiddenAppend(a[1..], b);
    }
  }

  /**
    Exactly the forbidden characters go: any character `c` is dropped when forbidden and
    otherwise kept, in its place between what was before it and what was after it.
  */
  lemma RemoveForbiddenKeeps(a: string, c: char, b: string)
    ensures RemoveForbidden(a + [c] + b) == RemoveForbidden(a) + (if Forbidden(c) then [] else [c]) + RemoveForbidden(b)
  {
    RemoveForbiddenAppend(a + [c], b);
    RemoveForbiddenAppend(a, [c]);
    assert [c][1..] == [];
  }

  /** `.replace(/\s+/g, rep)`: every maximal run of white space becomes one `rep`. */
  function Collapse(s: string, rep: char): (r: string)
    ensures forall c :: c in r ==> c == rep || (c in s && !IsSpace(c))
    ensures s != [] ==> r != [] && (IsSpace(s[0]) ==> r[0] == rep) && (!IsSpace(s[0]) ==> r[0] == s[0])
    ensures NoSpace(s) ==> r == s
    decreases |s|
  {
    if s == [] then []
    else if IsSpace(s[0]) then [rep] + Collapse(TrimStart(s[1..]), rep)
    else [s[0]] + Collapse(s[1..], rep)
  }

  /** After collapsing, no two white-space characters are adjacent. */
  lemma {:induction false} CollapseSingles(s: string, rep: char)
    ensures forall k :: 0 <= k < |Collapse(s, rep)| - 1 ==> !(IsSpace(Collapse(s, rep)[k]) && IsSpace(Collapse(s, rep)[k + 1]))
    decreases |s|
  {
    if s != [] {
      var r := Collapse(s, rep);
      if IsSpace(s[0]) {
        var t := TrimStart(s[1..]);
        CollapseSingles(t, rep);
        assert r == [rep] + Collapse(t, rep);
        if t != [] {
          assert !IsSpace(Collapse(t, rep)[0]);
        }
      } else {
        CollapseSingles(s[1..], rep);
        assert r == [s[0]] + Collapse(s[1..], rep);
      }
    }
  }

  /** `s` with its white space removed. */
  function NonSpaces(s: string): string {
    if s == [] then [] else (if IsSpace(s[0]) then [] else [s[0]]) + NonSpaces(s[1..])
  }

  /** `s` with every `c` removed. */
  function Without(s: string, c: char): string {
    if s == [] then [] else (if s[0] == c then [] else [s[0]]) + Without(s[1..], c)
  }

  lemma {:induction false} NonSpacesAppend(a: string, b: string)
    ensures NonSpaces(a + b) == NonSpaces(a) + NonSpaces(b)
  {
    if a == [] {
      assert a + b == b;
    } else {
      assert (a + b)[0] == a[0] && (a + b)[1..] == a[1..] + b;
      NonSpacesAppend(a[1..], b);
    }
  }

  lemma {:induction false} NonSpacesOfSpaces(a: string)
    requires forall k :: 0 <= k < |a| ==> IsSpace(a[k])
    ensures NonSpaces(a) == []
  {
    if a != [] {
      NonSpacesOfSpaces(a[1..]);
    }
  }

  /**
    Collapsing keeps every other character, in order: apart from the replacement
    character itself, the result holds exactly the non-white-space characters of `s`.
  */
  lemma {:induction false} CollapseKeeps(s: string, rep: char)
    ensures Without(Collapse(s, rep), rep) == Without(NonSpaces(s), rep)
    decreases |s|
  {
    if s != [] {
      if IsSpace(s[0]) {
        CollapseKeeps(TrimStart(s[1..]), rep);
        KeepsAfterSpace(s, rep);
      } else {
        CollapseKeeps(s[1..], rep);
        KeepsAfterChar(s, rep);
      }
    }
  }

  /** The white-space step of `CollapseKeeps`. */
  lemma KeepsAfterSpace(s: string, rep: char)
    requires s != [] && IsSpace(s[0])
    requires Without(Collapse(TrimStart(s[1..]), rep), rep) == Without(NonSpaces(TrimStart(s[1..])), rep)
    ensures Without(Collapse(s, rep), rep) == Without(NonSpaces(s), rep)
  {
    var t := TrimStart(s[1..]);
    NonSpacesSkipped(s);
    assert Collapse(s, rep) == [rep] + Collapse(t, rep);
    WithoutCons(rep, Collapse(t, rep), rep);
  }

  /** The step of `CollapseKeeps` over a character that is not white space. */
  lemma KeepsAfterChar(s: string, rep: char)
    requires s != [] && !IsSpace(s[0])
    requires Without(Collapse(s[1..], rep), rep) == Without(NonSpaces(s[1..]), rep)
    ensures Without(Collapse(s, rep), rep) == Without(NonSpaces(s), rep)
  {
    var rest := s[1..];
    assert Collapse(s, rep) == [s[0]] + Collapse(rest, rep);
    WithoutCons(s[0], Collapse(rest, rep), rep);
    assert NonSpaces(s) == [s[0]] + NonSpaces(rest);
    WithoutCons(s[0], NonSpaces(rest), rep);
  }

  /** A leading run of white space contributes nothing to `NonSpaces`. */
  lemma NonSpacesSkipped(s: string)
    requires s != [] && IsSpace(s[0])
    ensures NonSpaces(s) == NonSpaces(TrimStart(s[1..]))
  {
    var rest := s[1..];
    var t := TrimStart(rest);
    var spaces := rest[..|rest| - |t|];
    assert rest == spaces + t;
    NonSpacesAppend(spaces, t);
    NonSpacesOfSpaces(spaces);
  }

  lemma WithoutCons(c: char, x: string, rep: char)
    ensures Without([c] + x, rep) == (if c == rep then [] else [c]) + Without(x, rep)
  {
    assert ([c] + x)[1..] == x;
  }

  predicate NoForbidden(s: string) {
    forall k :: 0 <= k < |s| ==> !Forbidden(s[k])
  }

  /** The only white space left is the plain space. */
  predicate BlankSpacesOnly(s: string) {
    forall k :: 0 <= k < |s| ==> IsSpace(s[k]) ==> s[k] == ' '
  }

  predicate NoDoubleSpace(s: string) {
    forall k :: 0 <= k < |s| - 1 ==> !(IsSpace(s[k]) && IsSpace(s[k + 1]))
  }

  /** The shape `sanitize` guarantees: nothing forbidden, white space only as single spaces. */
  predicate Clean(s: string) {
    NoForbidden(s) && BlankSpacesOnly(s) && NoDoubleSpace(s)
  }

  lemma CleanSlice(s: string, i: nat, j: nat)
    requires Clean(s) && i <= j <= |s|
    ensures Clean(s[i..j])
  {
    var t := s[i..j];
    assert forall k :: 0 <= k < |t| ==> t[k] == s[i + k];
  }

  /** Collapsing a name free of forbidden characters into single spaces leaves it clean. */
  lemma CollapsedClean(s: string)
    requires NoForbidden(s)
    ensures Clean(Collapse(s, ' '))
  {
    var r := Collapse(s, ' ');
    CollapseSingles(s, ' ');
    forall k | 0 <= k < |r|
      ensures !Forbidden(r[k]) && (IsSpace(r[k]) ==> r[k] == ' ')
    {
      assert r[k] in r;
      if r[k] != ' ' {
        assert r[k] in s;
      }
    }
  }

  /** `String(name).replace(...).replace(/\s+/g, ' ').trim()`: the part before the cut to 120 characters. */
  function Cleaned(s: string): string {
    Trim(Collapse(RemoveForbidden(s), ' '))
  }

  lemma CleanedIsClean(s: string)
    ensures Clean(Cleaned(s))
    ensures Cleaned(s) == [] || !IsSpace(Cleaned(s)[0])
  {
    var collapsed := Collapse(RemoveForbidden(s), ' ');
    CollapsedClean(RemoveForbidden(s));
    var start := TrimStart(collapsed);
    CleanSlice(collapsed, |collapsed| - |start|, |collapsed|);
    CleanSlice(start, 0, |TrimEnd(start)|);
  }

  /** `sanitize(name)`: at most 120 characters of the cleaned name, or `'unnamed'` when none survive. */
  function Sanitize(s: string): (r: string)
    ensures 1 <= |r| <= 120
  {
    var t := Cleaned(s);
    var cut := if |t| <= 120 then t else t[..120];
    if cut == [] then Unnamed else cut
  }

  const Unnamed: string := "unnamed"

  lemma UnnamedPlain()
    ensures Clean(Unnamed) && NoSpace(Unnamed) && !IsSpace(Unnamed[0])
  {
    assert forall k :: 0 <= k < |Unnamed| ==> 'a' <= Unnamed[k] <= 'z';
  }

  /**
    The result is non-empty, at most 120 characters, free of forbidden characters and
    white-space runs, and does not start with white space; it is the start of the cleaned
    name (all of it when that fits), or `unnamed` when nothing survives the cleaning.
  */
  lemma SanitizeShape(s: string)
    ensures 1 <= |Sanitize(s)| <= 120
    ensures Clean(Sanitize(s)) && !IsSpace(Sanitize(s)[0])
    ensures Cleaned(s) != [] ==> |Sanitize(s)| <= |Cleaned(s)| && Sanitize(s) == Cleaned(s)[..|Sanitize(s)|]
    ensures Cleaned(s) != [] && |Cleaned(s)| <= 120 ==> Sanitize(s) == Cleaned(s)
    ensures Cleaned(s) == [] ==> Sanitize(s) == Unnamed
  {
    var t := Cleaned(s);
    CleanedIsClean(s);
    if t == [] {
      UnnamedPlain();
    } else if |t| > 120 {
      CleanSlice(t, 0, 120);
    }
  }

  /** A name that is already clean of forbidden characters and white space, and short enough, is kept as it is. */
  lemma SanitizeKeepsPlainNames(s: string)
    requires s != [] && |s| <= 120 && NoSpace(s) && NoForbidden(s)
    ensures Sanitize(s) == s
  {
  }

  /** Without white space there is nothing to collapse or trim. */
  lemma CleanedNoSpace(s: string)
    requires NoSpace(s)
    ensures Cleaned(s) == RemoveForbidden(s) && NoSpace(Cleaned(s))
  {
    var removed := RemoveForbidden(s);
    assert NoSpace(removed) by {
      assert forall k :: 0 <= k < |removed| ==> removed[k] in removed;
    }
  }

  /** A name without white space keeps none through `sanitize`. */
  lemma SanitizeNoSpace(s: string)
    requires NoSpace(s)
    ensures NoSpace(Sanitize(s))
  {
    CleanedNoSpace(s);
    UnnamedPlain();
  }

  // ---------------------------------------------------------------------------------
  // Extensions

  /** The five MIME types `guessExtFromContentType` knows. */
  function MimeExt(mime: string): (r: Option<string>)
    ensures r.Some? ==> r.value != "" && '.' !in r.value && '/' !in r.value
  {
    if mime == "application/pdf" then Some("pdf")
    else if mime == "application/msword" then Some("doc")
    else if mime == "application/vnd.openxmlformats-officedocument.wordprocessingml.document" then Some("docx")
    else if mime == "application/rtf" then Some("rtf")
    else if mime == "text/plain" then Some("txt")
    else None
  }

  /** `guessExtFromContentType(ct)`: the media type before any `;`, trimmed and lower-cased, looked up. */
  function ExtFromContentType(ct: Option<string>): (r: Option<string>)
    ensures ct.None? || ct == Some("") ==> r.None?
    ensures r.Some? ==> r.value != "" && '.' !in r.value && '/' !in r.value
  {
    if ct.None? || ct.value == "" then None
    else MimeExt(Lower(Trim(Split(ct.value, ';')[0])))
  }

  /** The media type each extension comes from: the inverse of the table. */
  function MimeOf(ext: string): string {
    if ext == "pdf" then "application/pdf"
    else if ext == "doc" then "application/msword"
    else if ext == "docx" then "application/vnd.openxmlformats-officedocument.wordprocessingml.document"
    else if ext == "rtf" then "application/rtf"
    else "text/plain"
  }

  /** Every extension the table yields maps back to the media type it came from. */
  lemma MimeTableInverse(mime: string)
    requires MimeExt(mime).Some?
    ensures MimeOf(MimeExt(mime).value) == mime
  {
  }

  /** Each of the five extensions comes out of its own media type. */
  lemma MimeTableCovers(ext: string)
    requires ext == "pdf" || ext == "doc" || ext == "docx" || ext == "rtf" || ext == "txt"
    ensures MimeExt(MimeOf(ext)) == Some(ext)
  {
    var pdf, rtf := "application/pdf", "application/rtf";
    assert pdf[12] != rtf[12];
  }

  /** The media type is trimmed and lower-cased before the lookup: surrounding white space and letter case do not matter. */
  lemma ContentTypeNormalised(pre: string, mime: string, post: string)
    requires forall k :: 0 <= k < |pre| ==> IsSpace(pre[k])
    requires forall k :: 0 <= k < |post| ==> IsSpace(post[k])
    requires mime != "" && !IsSpace(mime[0]) && !IsSpace(mime[|mime| - 1])
    requires ';' !in pre + mime + post
    ensures ExtFromContentType(Some(pre + mime + post)) == MimeExt(Lower(mime))
  {
    assert Split(pre + mime + post, ';') == [pre + mime + post];
    TrimAround(pre, mime, post);
  }

  /** Parameters after the first `;` never matter. */
  lemma ContentTypeParams(mime: string, params: string)
    requires mime != "" && ';' !in mime
    ensures ExtFromContentType(Some(mime + ";" + params)) == ExtFromContentType(Some(mime))
  {
    var whole := mime + ";" + params;
    assert whole[..|mime|] == mime;
    assert whole[|mime|] == ';';
    var parts := Split(whole, ';');
    assert IndexOf(whole, ';') == |mime| by {
      assert forall k :: 0 <= k < |mime| ==> whole[k] == mime[k];
    }
    assert Split(mime, ';') == [mime];
  }

  /** The last position of `c` in `s`. */
  function LastIndexOf(s: string, c: char): (r: Option<nat>)
    ensures r.Some? ==> r.value < |s| && s[r.value] == c && c !in s[r.value + 1..]
    ensures r.None? ==> c !in s
  {
    if s == [] then None
    else if s[|s| - 1] == c then Some(|s| - 1)
    else
      var r := LastIndexOf(s[..|s| - 1], c);
      assert s == s[..|s| - 1] + [s[|s| - 1]];
      r
  }

  /** `path.basename(p)`: the last `/`-separated segment, trailing slashes ignored. */
  function Basename(p: string): (b: string)
    ensures '/' !in b
    decreases |p|
  {
    if p != [] && p[|p| - 1] == '/' then Basename(p[..|p| - 1])
    else
      match LastIndexOf(p, '/')
      case None => p
      case Some(i) => p[i + 1..]
  }

  /**
    `path.extname(base).replace('.', '') || null`: the text after the last dot, absent when
    there is no dot, when the only dot opens the name, or when nothing follows it.
  */
  function ExtFromBase(base: string): (r: Option<string>)
    ensures r.Some? ==> r.value != "" && '.' !in r.value && (forall c :: c in r.value ==> c in base)
  {
    match LastIndexOf(base, '.')
    case None => None
    case Some(i) => if i == 0 || i + 1 == |base| then None else Some(base[i + 1..])
  }

  /** `guessExtFromUrl(url)` from the URL's pathname (`None` when `new URL` throws). */
  function ExtFromPathname(pathname: Option<string>): (r: Option<string>)
    ensures r.Some? ==> r.value != "" && '.' !in r.value && '/' !in r.value
  {
    if pathname.None? then None else ExtFromBase(Basename(pathname.value))
  }

  /** The basename of `dir/name` is `name`. */
  lemma BasenameOf(dir: string, name: string)
    requires name != [] && '/' !in name
    ensures Basename(dir + "/" + name) == name
  {
    var p := dir + "/" + name;
    assert p[|p| - 1] == name[|name| - 1];
    LastIndexAfter(dir, '/', name);
    assert p[|dir| + 1..] == name;
  }

  /** The extension of `stem.ext` is `ext`. */
  lemma ExtFromBaseOf(stem: string, ext: string)
    requires stem != [] && ext != [] && '.' !in ext
    ensures ExtFromBase(stem + "." + ext) == Some(ext)
  {
    var name := stem + "." + ext;
    LastIndexAfter(stem, '.', ext);
    assert name[|stem| + 1..] == ext;
  }

  /** A path whose last segment is `stem.ext` yields `ext`. */
  lemma ExtFromPathnameRoundTrip(dir: string, stem: string, ext: string)
    requires stem != [] && ext != []
    requires '/' !in stem && '/' !in ext && '.' !in ext
    ensures ExtFromPathname(Some(dir + "/" + stem + "." + ext)) == Some(ext)
  {
    var name := stem + "." + ext;
    assert dir + "/" + stem + "." + ext == dir + "/" + name;
    assert '/' !in name;
    BasenameOf(dir, name);
    ExtFromBaseOf(stem, ext);
  }

  /** The last `c` of `a + [c] + b` is the one in the middle when `b` holds none. */
  lemma {:induction false} LastIndexAfter(a: string, c: char, b: string)
    requires c !in b
    ensures LastIndexOf(a + [c] + b, c) == Some(|a|)
    decreases |b|
  {
    var s := a + [c] + b;
    if b != [] {
      assert s[|s| - 1] == b[|b| - 1];
      assert s[..|s| - 1] == a + [c] + b[..|b| - 1];
      assert c !in b[..|b| - 1] by {
        assert forall k :: 0 <= k < |b| - 1 ==> b[..|b| - 1][k] == b[k];
      }
      LastIndexAfter(a, c, b[..|b| - 1]);
    }
  }

  /** What the HEAD request (with its retries) produced. */
  datatype Head = HeadOk(contentType: Option<string>) | HeadFailed

  /**
    The extension chain: the URL's extension; else the content type of a HEAD answer;
    else `'pdf'`, also when the HEAD request failed. `head` is consulted only without a URL extension.
  */
  function ResolveExt(pathname: Option<string>, head: Head): (ext: string)
    ensures ext != "" && '.' !in ext && '/' !in ext
    ensures ExtFromPathname(pathname).Some? ==> ext == ExtFromPathname(pathname).value
    ensures ExtFromPathname(pathname).None? && head.HeadOk? && ExtFromContentType(head.contentType).Some?
      ==> ext == ExtFromContentType(head.contentType).value
    ensures ExtFromPathname(pathname).None? && head.HeadOk? && ExtFromContentType(head.contentType).None? ==> ext == "pdf"
    ensures ExtFromPathname(pathname).None? && head.HeadFailed? ==> ext == "pdf"
  {
    var fromUrl := ExtFromPathname(pathname);
    if fromUrl.Some? then fromUrl.value
    else match head
      case HeadFailed => "pdf"
      case HeadOk(ct) =>
        var guess := ExtFromContentType(ct);
        if guess.Some? then guess.value
        else "pdf"
  }

  // ---------------------------------------------------------------------------------
  // Destination paths

  /** `new Date(uploadedAt)`: a valid date gives its UTC year and month index (0 to 11). */
  datatype Calendar = Invalid | Date(year: int, monthIndex: MonthIndex)

  type MonthIndex = m: nat | m < 12

  /** The year and month folders: `'0000'`/`'00'` for an invalid date. */
  function DateFolders(d: Calendar): (r: (string, string))
    ensures d.Date? ==> |r.1| == 2 && (forall k :: 0 <= k < 2 ==> IsDigit(r.1[k])) && DecimalValue(r.1) == d.monthIndex + 1
  {
    match d
    case Invalid => ("0000", "00")
    case Date(y, m) =>
      Pad2Digits(m + 1);
      (IntToString(y), Pad2(m + 1))
  }

  /** `x || fallback` for a string. */
  function OrElse(s: string, fallback: string): string {
    if s == "" then fallback else s
  }

  /** `sanitize((r.jobName || 'unknown_job').toLowerCase())`. */
  function JobDir(jobName: string): string {
    Sanitize(Lower(OrElse(jobName, "unknown_job")))
  }

  /** `sanitize((r.fullName || 'unnamed').replace(/\s+/g, '_').toLowerCase())`. */
  function SafeName(fullName: string): string {
    Sanitize(Lower(Collapse(OrElse(fullName, "unnamed"), '_')))
  }

  /** Lower-casing neither creates nor removes white space. */
  lemma LowerNoSpace(s: string)
    requires NoSpace(s)
    ensures NoSpace(Lower(s))
  {
  }

  /** The flat file name has no white space: runs of it became `_` before sanitizing. */
  lemma SafeNameNoSpace(fullName: string)
    ensures NoSpace(SafeName(fullName))
  {
    var s := Collapse(OrElse(fullName, "unnamed"), '_');
    assert forall k :: 0 <= k < |s| ==> s[k] in s;
    LowerNoSpace(s);
    SanitizeNoSpace(Lower(s));
  }

  /** The nested layout's path below the output directory: `YYYY/MM/<jobDir>/<safeName>.<ext>`. */
  function NestedPath(d: Calendar, jobName: string, fullName: string, ext: string): string
  {
    var (year, month) := DateFolders(d);
    Join([year, month, JobDir(jobName), SafeName(fullName) + "." + ext], "/")
  }

  /**
    The nested path is four `/`-separated segments (year, month, job folder, file name):
    neither the folders nor the sanitized names can introduce another `/`.
  */
  lemma NestedPathSegments(d: Calendar, jobName: string, fullName: string, ext: string)
    requires '/' !in ext
    ensures Split(NestedPath(d, jobName, fullName, ext), '/')
      == [DateFolders(d).0, DateFolders(d).1, JobDir(jobName), SafeName(fullName) + "." + ext]
  {
    var parts := [DateFolders(d).0, DateFolders(d).1, JobDir(jobName), SafeName(fullName) + "." + ext];
    assert NestedPath(d, jobName, fullName, ext) == Join(parts, "/");
    FoldersNoSlash(d);
    SanitizedNoSlash(Lower(OrElse(jobName, "unknown_job")));
    SanitizedNoSlash(Lower(Collapse(OrElse(fullName, "unnamed"), '_')));
    SegmentsNoSlash(DateFolders(d).0, DateFolders(d).1, JobDir(jobName), SafeName(fullName), ext);
    SplitJoin(parts, '/');
  }

  lemma SegmentsNoSlash(year: string, month: string, job: string, name: string, ext: string)
    requires '/' !in year && '/' !in month && '/' !in job && '/' !in name && '/' !in ext
    ensures var parts := [year, month, job, name + "." + ext];
      forall k :: 0 <= k < |parts| ==> '/' !in parts[k]
  {
    assert name + "." + ext == name + ("." + ext);
  }

  /** The year and month folders are digits (and a sign), never `/`. */
  lemma FoldersNoSlash(d: Calendar)
    ensures '/' !in DateFolders(d).0 && '/' !in DateFolders(d).1
  {
    if d.Date? {
      var digits := NatToString(if d.year < 0 then -d.year else d.year);
      assert '/' !in digits by {
        assert forall k :: 0 <= k < |digits| ==> IsDigit(digits[k]);
      }
      assert DateFolders(d).0 == (if d.year < 0 then "-" + digits else digits);
    }
  }

  /** `sanitize` deletes every `/`. */
  lemma SanitizedNoSlash(s: string)
    ensures '/' !in Sanitize(s)
  {
    SanitizeShape(s);
    assert Forbidden('/');
  }


  /** The flat layout's file name: `<safeName>_<candidateId>.<ext>`. */
  function FlatName(fullName: string, candidateId: Value, ext: string): string {
    SafeName(fullName) + "_" + Render(candidateId) + "." + ext
  }

  /** The flat layout's `local_path`, relative to the output root. */
  function FlatPath(fullName: string, candidateId: Value, ext: string): string {
    "flat/" + FlatName(fullName, candidateId, ext)
  }

  /** Reads the candidate id back out of a flat file name: between the last `_` and the last `.`. */
  function IdOfFlatName(name: string): Option<string> {
    match LastIndexOf(name, '.')
    case None => None
    case Some(d) =>
      match LastIndexOf(name[..d], '_')
      case None => None
      case Some(u) => Some(name[..d][u + 1..])
  }

  /** The text between the last `_` and the last `.` of `stem_id.ext`, when `ext` holds no `.` and `id` no `_`. */
  lemma IdOfJoined(stem: string, id: string, ext: string)
    requires '.' !in ext && '_' !in id
    ensures IdOfFlatName(stem + "_" + id + "." + ext) == Some(id)
  {
    var front := stem + "_" + id;
    var name := front + "." + ext;
    LastIndexAfter(front, '.', ext);
    assert name[..|front|] == front;
    LastIndexAfter(stem, '_', id);
    assert front[|stem| + 1..] == id;
  }

  /** The id is recoverable from the flat name when its rendering has no `_`. */
  lemma FlatNameId(fullName: string, candidateId: Value, ext: string)
    requires '.' !in ext
    requires '_' !in Render(candidateId)
    ensures IdOfFlatName(FlatName(fullName, candidateId, ext)) == Some(Render(candidateId))
  {
    IdOfJoined(SafeName(fullName), Render(candidateId), ext);
  }

  /** Distinct ids (rendered without `_`) get distinct flat names, whatever the names and extensions. */
  lemma FlatNamesDistinct(n1: string, id1: Value, e1: string, n2: string, id2: Value, e2: string)
    requires '.' !in e1 && '.' !in e2
    requires '_' !in Render(id1) && '_' !in Render(id2)
    requires Render(id1) != Render(id2)
    ensures FlatName(n1, id1, e1) != FlatName(n2, id2, e2)
  {
    FlatNameId(n1, id1, e1);
    FlatNameId(n2, id2, e2);
  }

  /** A numeric id renders without `_` or `.`. */
  lemma NumericIdPlain(n: int)
    ensures '_' !in Render(Num(n)) && '.' !in Render(Num(n))
  {
    var digits := NatToString(if n < 0 then -n else n);
    assert forall k :: 0 <= k < |digits| ==> IsDigit(digits[k]);
  }

  /** Different integers print differently. */
  lemma RenderNumInjective(a: int, b: int)
    requires a != b
    ensures Render(Num(a)) != Render(Num(b))
  {
    var na := NatToString(if a < 0 then -a else a);
    var nb := NatToString(if b < 0 then -b else b);
    DecimalRoundTrip(if a < 0 then -a else a);
    DecimalRoundTrip(if b < 0 then -b else b);
    assert IsDigit(na[0]) && IsDigit(nb[0]);
    if a < 0 && b < 0 {
      assert Render(Num(a))[1..] == na && Render(Num(b))[1..] == nb;
    } else if a < 0 {
      assert Render(Num(a))[0] == '-';
    } else if b < 0 {
      assert Render(Num(b))[0] == '-';
    }
  }

  /** Two candidates with numeric ids get distinct flat paths, whatever their names and extensions. */
  lemma FlatPathsDistinct(name1: string, name2: string, e1: string, e2: string, id1: int, id2: int)
    requires '.' !in e1 && '.' !in e2 && id1 != id2
    ensures FlatPath(name1, Num(id1), e1) != FlatPath(name2, Num(id2), e2)
  {
    NumericIdPlain(id1);
    NumericIdPlain(id2);
    RenderNumInjective(id1, id2);
    FlatNamesDistinct(name1, Num(id1), e1, name2, Num(id2), e2);
    var f1 := FlatName(name1, Num(id1), e1);
    var f2 := FlatName(name2, Num(id2), e2);
    assert ("flat/" + f1)[5..] == f1;
    assert ("flat/" + f2)[5..] == f2;
  }
}
