/** The download script `save_links.py`: choosing a file name for a URL, joining it to the destination
    folder and writing the response body chunk by chunk while counting the bytes. */
module Downloader {
  import opened Optional
  import opened Text
  import opened Seqs

  newtype byte = x: int | 0 <= x < 256

  // ---------------------------------------------------------------------------------------------
  // File names

  /** The name used when neither the URL nor the headers give one. */
  const DefaultName: string := "arquivo_baixado_sem_nome"

  /** `os.path.basename` on a POSIX path: everything after the last `/`. */
  function BaseName(path: string): (name: string)
    ensures '/' !in name && |name| <= |path|
    decreases |path|
  {
    if path == [] || path[|path| - 1] == '/' then []
    else BaseName(path[..|path| - 1]) + [path[|path| - 1]]
  }

  /** The base name is a suffix of the path, and either the whole path or what follows its last `/`. */
  lemma {:induction false} BaseNameSuffix(path: string)
    ensures BaseName(path) == path[|path| - |BaseName(path)|..]
    ensures |BaseName(path)| < |path| ==> path[|path| - |BaseName(path)| - 1] == '/'
    decreases |path|
  {
    if path != [] && path[|path| - 1] != '/' {
      var init, last := path[..|path| - 1], path[|path| - 1];
      BaseNameSuffix(init);
      var b := BaseName(init);
      assert BaseName(path) == b + [last];
      assert path == init + [last];
      assert path[|init| - |b|..] == init[|init| - |b|..] + [last];
    }
  }

  /** A path without `/` is its own base name. */
  lemma BaseNameOfPlainName(name: string)
    requires '/' !in name
    ensures BaseName(name) == name
  {
    assert name[|name| - |name|..] == name;
    BaseNameUnique(name, name);
  }

  /** The characters stripped from both ends of a `filename=` value: double quote, single quote, space. */
  const QuotesAndSpace: StripChars := Chars({'"', '\'', ' '})

  /** A `;`-separated part of `Content-Disposition` that names the file: stripped, it starts with `filename=`. */
  predicate NamesFile(part: string)
  {
    StartsWith(Strip(part), "filename=")
  }

  /** The index of the first part that names the file, or `|parts|` when none does. */
  function FirstNamingPart(parts: seq<string>): (i: nat)
    ensures i <= |parts|
    ensures i < |parts| ==> NamesFile(parts[i])
    decreases |parts|
  {
    if parts == [] then 0
    else if NamesFile(parts[0]) then 0
    else
      var i := FirstNamingPart(parts[1..]);
      assert i < |parts| - 1 ==> parts[1..][i] == parts[i + 1];
      1 + i
  }

  /** The search passes over only parts that do not name the file: it stops at the first one that does. */
  lemma {:induction false} FirstNamingPartIsFirst(parts: seq<string>, j: nat)
    requires j < FirstNamingPart(parts)
    ensures !NamesFile(parts[j])
    decreases |parts|
  {
    if j > 0 {
      FirstNamingPartIsFirst(parts[1..], j - 1);
    }
  }

  /** Some part names the file exactly when the search stops before the end. */
  lemma FirstNamingPartFinds(parts: seq<string>)
    ensures FirstNamingPart(parts) < |parts| <==> exists j :: 0 <= j < |parts| && NamesFile(parts[j])
  {
    var i := FirstNamingPart(parts);
    if i < |parts| {
      assert NamesFile(parts[i]);
    } else {
      forall j | 0 <= j < |parts|
        ensures !NamesFile(parts[j])
      {
        FirstNamingPartIsFirst(parts, j);
      }
    }
  }

  /** A part that names the file contains `=`. */
  lemma NamingPartHasEquals(part: string)
    requires NamesFile(part)
    ensures '=' in part
  {
    var stripped := Strip(part);
    assert stripped[8] == '=';
    if '=' !in part {
      TrimKeepsOut(part, Whitespace, '=');
    }
  }

  /** A part that names the file splits on `=` into at least two pieces. */
  lemma NamingPartHasValue(part: string)
    requires NamesFile(part)
    ensures |Split(part, '=')| >= 2
  {
    NamingPartHasEquals(part);
  }

  /** The value of a naming part: the text between its first and second `=`, quotes and spaces stripped.
      It holds no `=`, and its ends are neither quotes nor spaces. */
  function PartValue(part: string): (value: string)
    requires NamesFile(part)
    ensures '=' !in value
    ensures value != [] ==> !Drops(QuotesAndSpace, value[0]) && !Drops(QuotesAndSpace, value[|value| - 1])
  {
    NamingPartHasValue(part);
    var piece := Split(part, '=')[1];
    TrimKeepsOut(piece, QuotesAndSpace, '=');
    Trim(piece, QuotesAndSpace)
  }

  /** The value of a part holds no character the part lacks. */
  lemma PartValueKeepsOut(part: string, c: char)
    requires NamesFile(part) && c !in part
    ensures c !in PartValue(part)
  {
    NamingPartHasValue(part);
    SplitKeepsOut(part, '=', 1, c);
    TrimKeepsOut(Split(part, '=')[1], QuotesAndSpace, c);
  }

  /** The file name carried by a `Content-Disposition` value: the value of its first naming part, or
      `None` when no part names the file. The name may be empty. */
  function HeaderFileName(disposition: string): Option<string>
  {
    var parts := Split(disposition, ';');
    var i := FirstNamingPart(parts);
    if i == |parts| then None else Some(PartValue(parts[i]))
  }

  /** The header gives a name exactly when one of its `;`-separated parts names the file. */
  lemma HeaderFileNameFound(disposition: string)
    ensures HeaderFileName(disposition).Some? <==>
            exists j :: 0 <= j < |Split(disposition, ';')| && NamesFile(Split(disposition, ';')[j])
  {
    var parts := Split(disposition, ';');
    HeaderFileNameSearch(disposition);
    FirstNamingPartFinds(parts);
  }

  lemma HeaderFileNameSearch(disposition: string)
    ensures HeaderFileName(disposition).Some? <==> FirstNamingPart(Split(disposition, ';')) < |Split(disposition, ';')|
  {
  }

  /** A name taken from the header holds neither `;` nor `=`, and starts and ends with neither a quote
      nor a space. */
  lemma HeaderFileNameClean(disposition: string)
    requires HeaderFileName(disposition).Some?
    ensures var name := HeaderFileName(disposition).value;
      ';' !in name && '=' !in name &&
      (name != [] ==> !Drops(QuotesAndSpace, name[0]) && !Drops(QuotesAndSpace, name[|name| - 1]))
  {
    var parts := Split(disposition, ';');
    var i := FirstNamingPart(parts);
    PartValueKeepsOut(parts[i], ';');
  }

  /** The file name chosen for a download: the base name of the URL path when it is not empty;
      otherwise the header's file name when there is a non-empty one; otherwise the default. */
  function InferName(urlPath: string, disposition: Option<string>): (name: string)
    ensures name != []
    ensures BaseName(urlPath) != [] ==> name == BaseName(urlPath)
  {
    var fromUrl := BaseName(urlPath);
    if fromUrl != [] then fromUrl
    else
      var fromHeader := if disposition.Some? then HeaderFileName(disposition.value) else None;
      if fromHeader.Some? && fromHeader.value != [] then fromHeader.value else DefaultName
  }

  /** Without a name in the URL path and with no `;`-part of the header naming the file (or no header),
      the default name is used. */
  lemma InferNameDefault(urlPath: string, disposition: Option<string>)
    requires BaseName(urlPath) == []
    requires disposition.Some? ==>
      forall j :: 0 <= j < |Split(disposition.value, ';')| ==> !NamesFile(Split(disposition.value, ';')[j])
    ensures InferName(urlPath, disposition) == DefaultName
  {
    if disposition.Some? {
      HeaderFileNameFound(disposition.value);
    }
  }

  /** Without a name in the URL path, the first `;`-part of the header that names the file decides:
      its value when that is not empty, the default name otherwise. */
  lemma InferNameFromHeader(urlPath: string, disposition: string, j: nat)
    requires BaseName(urlPath) == []
    requires j < |Split(disposition, ';')| && NamesFile(Split(disposition, ';')[j])
    requires forall m :: 0 <= m < j ==> !NamesFile(Split(disposition, ';')[m])
    ensures var value := PartValue(Split(disposition, ';')[j]);
      InferName(urlPath, Some(disposition)) == if value == [] then DefaultName else value
  {
    var parts := Split(disposition, ';');
    FirstNamingPartAt(parts, j);
    HeaderFileNameAt(disposition, parts, j);
  }

  /** The search stops at `j` when part `j` names the file and no earlier part does. */
  lemma FirstNamingPartAt(parts: seq<string>, j: nat)
    requires j < |parts| && NamesFile(parts[j])
    requires forall m :: 0 <= m < j ==> !NamesFile(parts[m])
    ensures FirstNamingPart(parts) == j
  {
    var i := FirstNamingPart(parts);
    if i > j {
      FirstNamingPartIsFirst(parts, j);
    }
  }

  /** A name taken from the URL path never holds `/`. */
  lemma InferNameFromUrlIsPlain(urlPath: string, disposition: Option<string>)
    requires BaseName(urlPath) != []
    ensures '/' !in InferName(urlPath, disposition)
  {
  }

  lemma AttachmentIsNoNamingPart()
    ensures !NamesFile("attachment")
  {
    assert '=' !in "attachment";
    if NamesFile("attachment") {
      NamingPartHasEquals("attachment");
    }
  }

  lemma FilenameParamNamesFile(quoted: string)
    requires quoted != [] && quoted[|quoted| - 1] == '"'
    ensures NamesFile(" filename=" + quoted)
  {
    var rest := "filename=" + quoted;
    assert " filename=" + quoted == [' '] + rest;
    StripFilenameParam(rest);
  }

  lemma StripFilenameParam(rest: string)
    requires |rest| > 9 && rest[0] == 'f' && rest[|rest| - 1] == '"'
    ensures Strip([' '] + rest) == rest
  {
    assert ([' '] + rest)[1..] == rest;
    assert TrimLeft([' '] + rest, Whitespace) == rest;
    assert TrimRight(rest, Whitespace) == rest;
  }

  lemma FilenameParamSplits(quoted: string)
    requires '=' !in quoted
    ensures Split(" filename=" + quoted, '=') == [" filename", quoted]
  {
    assert " filename=" + quoted == " filename" + ['='] + quoted;
    assert '=' !in " filename";
    SplitTwo(" filename", quoted, '=');
  }

  lemma AttachmentParts(name: string)
    requires ';' !in name
    ensures var part := " filename=" + (['"'] + name + ['"']);
      Split("attachment; filename=\"" + name + "\"", ';') == ["attachment", part]
  {
    var part := " filename=" + (['"'] + name + ['"']);
    AttachmentShape(name);
    AttachmentPiecesPlain(name);
    SplitTwo("attachment", part, ';');
  }

  lemma AttachmentShape(name: string)
    ensures "attachment; filename=\"" + name + "\"" == "attachment" + [';'] + (" filename=" + (['"'] + name + ['"']))
  {
  }

  lemma AttachmentPiecesPlain(name: string)
    requires ';' !in name
    ensures ';' !in "attachment" && ';' !in " filename=" + (['"'] + name + ['"'])
  {
  }

  lemma SecondPartNames(first: string, second: string)
    requires !NamesFile(first) && NamesFile(second)
    ensures FirstNamingPart([first, second]) == 1
  {
    var parts := [first, second];
    assert parts[0] == first && parts[1..] == [second];
    assert FirstNamingPart([second]) == 0;
  }

  lemma QuotedShape(name: string)
    requires '=' !in name
    ensures var quoted := ['"'] + name + ['"'];
      '=' !in quoted && quoted != [] && quoted[|quoted| - 1] == '"'
  {
  }

  /** The header's name is the value of the part the search stops at. */
  lemma HeaderFileNameAt(disposition: string, parts: seq<string>, i: nat)
    requires Split(disposition, ';') == parts && i < |parts| && FirstNamingPart(parts) == i
    ensures HeaderFileName(disposition) == Some(PartValue(parts[i]))
  {
  }

  lemma PartValueOfPieces(part: string, key: string, raw: string)
    requires NamesFile(part) && Split(part, '=') == [key, raw]
    ensures PartValue(part) == Trim(raw, QuotesAndSpace)
  {
  }

  /** A header written as `attachment; filename="<name>"` gives back `<name>`, for any name free of
      `;` and `=` whose ends are not quotes or spaces. */
  lemma HeaderFileNameOfAttachment(name: string)
    requires ';' !in name && '=' !in name
    requires name != [] ==> !Drops(QuotesAndSpace, name[0]) && !Drops(QuotesAndSpace, name[|name| - 1])
    ensures HeaderFileName("attachment; filename=\"" + name + "\"") == Some(name)
  {
    var quoted := ['"'] + name + ['"'];
    var part := " filename=" + quoted;
    var parts := ["attachment", part];
    AttachmentParts(name);
    AttachmentIsNoNamingPart();
    QuotedShape(name);
    FilenameParamNamesFile(quoted);
    SecondPartNames("attachment", part);
    HeaderFileNameAt("attachment; filename=\"" + name + "\"", parts, 1);
    FilenameParamSplits(quoted);
    PartValueOfPieces(part, " filename", quoted);
    TrimWrapped('"', name, QuotesAndSpace);
  }

  /** The header of the usual form gives the name between the quotes. */
  lemma ReportPdfExample()
    ensures InferName("/downloads/", Some("attachment; filename=\"report.pdf\"")) == "report.pdf"
  {
    var header := "attachment; filename=\"report.pdf\"";
    ReportPdfHeader();
    ReportPdfIsClean();
    HeaderFileNameOfAttachment("report.pdf");
    assert HeaderFileName(header) == Some("report.pdf");
    NoUrlName();
  }

  lemma ReportPdfHeader()
    ensures "attachment; filename=\"report.pdf\"" == "attachment; filename=\"" + "report.pdf" + "\""
  {
  }

  lemma ReportPdfIsClean()
    ensures ';' !in "report.pdf" && '=' !in "report.pdf"
    ensures !Drops(QuotesAndSpace, "report.pdf"[0]) && !Drops(QuotesAndSpace, "report.pdf"[|"report.pdf"| - 1])
  {
  }

  lemma NoUrlName()
    ensures BaseName("/downloads/") == []
  {
  }

  /** A URL path ending in a name gives that name, and the header is not consulted. */
  lemma UrlNameExample(disposition: Option<string>)
    ensures InferName("/files/archive.zip", disposition) == "archive.zip"
  {
    ArchivePath();
    BaseNameAfterSlash("/files/", "archive.zip");
    BaseNameOfPlainName("archive.zip");
  }

  lemma ArchivePath()
    ensures "/files/archive.zip" == "/files/" + "archive.zip" && '/' !in "archive.zip"
  {
  }

  /** With no name in the URL and no header the default name is used. */
  lemma DefaultNameExample()
    ensures InferName("", None) == DefaultName
  {
  }

  // ---------------------------------------------------------------------------------------------
  // Destination path

  /** `os.path.join(folder, name)` on POSIX: an absolute `name` replaces the folder; otherwise the path
      is the folder, then one `/` unless the folder is empty or already ends with one, then the name. */
  function JoinPath(folder: string, name: string): (path: string)
    ensures StartsWith(name, "/") ==> path == name
    ensures !StartsWith(name, "/") ==>
      var slash := folder != [] && folder[|folder| - 1] != '/';
      |path| == |folder| + (if slash then 1 else 0) + |name| &&
      path[..|folder|] == folder && path[|path| - |name|..] == name && (slash ==> path[|folder|] == '/')
    ensures !StartsWith(name, "/") ==> exists prefix :: path == prefix + name && (prefix == [] || prefix[|prefix| - 1] == '/')
  {
    if StartsWith(name, "/") then name
    else if folder == [] || folder[|folder| - 1] == '/' then folder + name
    else
      assert (folder + "/")[|folder|] == '/';
      folder + "/" + name
  }

  /** The last component of the joined path is the last component of the name: the file lands under the
      chosen name whatever the folder. */
  lemma JoinPathBaseName(folder: string, name: string)
    ensures BaseName(JoinPath(folder, name)) == BaseName(name)
  {
    if !StartsWith(name, "/") {
      var path := JoinPath(folder, name);
      var prefix: string :| path == prefix + name && (prefix == [] || prefix[|prefix| - 1] == '/');
      BaseNameAfterSlash(prefix, name);
    }
  }

  /** The base name is the only suffix without `/` that is the whole path or follows a `/`. */
  lemma BaseNameUnique(path: string, name: string)
    requires '/' !in name && |name| <= |path| && name == path[|path| - |name|..]
    requires |name| < |path| ==> path[|path| - |name| - 1] == '/'
    ensures BaseName(path) == name
  {
    BaseNameSuffix(path);
  }

  lemma BaseNameAfterSlash(prefix: string, name: string)
    requires prefix == [] || prefix[|prefix| - 1] == '/'
    ensures BaseName(prefix + name) == BaseName(name)
  {
    var path, b := prefix + name, BaseName(name);
    BaseNameSuffix(name);
    assert b == path[|path| - |b|..];
    if |b| < |path| {
      assert path[|path| - |b| - 1] == '/' by {
        if |b| < |name| {
          assert path[|path| - |b| - 1] == name[|name| - |b| - 1];
        } else {
          assert path[|path| - |b| - 1] == prefix[|prefix| - 1];
        }
      }
    }
    BaseNameUnique(path, b);
  }

  // ---------------------------------------------------------------------------------------------
  // Writing the body

  /** What `requests.get` delivered: whether the status check passes, the path part of the URL, the
      `Content-Disposition` header when present, and the body as the chunks `iter_content` yields. */
  datatype Response = Response(statusOk: bool, urlPath: string, disposition: Option<string>, chunks: seq<seq<byte>>)

  /** How a call of `baixar_arquivo` ends. `RequestFailed` covers an exception from `requests.get` and a
      failing status check, `SaveFailed` an `OSError` from `os.makedirs` or `open`. */
  datatype Outcome = Saved(name: string, path: string, total: nat) | RequestFailed | SaveFailed

  /** The local disk: the folders and the files with their bytes, by path. */
  class Disk {
    var folders: set<string>
    var files: map<string, seq<byte>>

    constructor(folders: set<string>, files: map<string, seq<byte>>)
      ensures this.folders == folders && this.files == files
    {
      this.folders := folders;
      this.files := files;
    }

    /** `os.makedirs(folder, exist_ok=True)`: fails when the system refuses (`oracleOk` false) or when a
        file has that path; an existing folder is fine. */
    method MakeDirs(folder: string, oracleOk: bool) returns (ok: bool)
      modifies this
      ensures ok <==> oracleOk && folder !in old(files)
      ensures files == old(files)
      ensures folders == if ok then old(folders) + {folder} else old(folders)
    {
      ok := oracleOk && folder !in files;
      if ok {
        folders := folders + {folder};
      }
    }

    /** `open(path, 'wb')`: fails when the system refuses or the path is a folder; otherwise the file
        exists and is empty. */
    method OpenForWriting(path: string, oracleOk: bool) returns (ok: bool)
      modifies this
      ensures ok <==> oracleOk && path !in old(folders)
      ensures folders == old(folders)
      ensures files == if ok then old(files)[path := []] else old(files)
    {
      ok := oracleOk && path !in folders;
      if ok {
        files := files[path := []];
      }
    }

    /** `f.write(chunk)` on a file opened for writing. */
    method Append(path: string, chunk: seq<byte>)
      requires path in files
      modifies this
      ensures folders == old(folders)
      ensures files == old(files)[path := old(files)[path] + chunk]
    {
      files := files[path := files[path] + chunk];
    }

    /** `baixar_arquivo(url, folder)` once the request has been made (`reply` is `None` when
        `requests.get` raised). The status check comes first, then the name, the folder, the file,
        and the loop that writes every non-empty chunk and counts its bytes. */
    method Download(reply: Option<Response>, folder: string, makeDirsOk: bool, openOk: bool)
      returns (outcome: Outcome)
      modifies this
      ensures reply.None? || !reply.value.statusOk ==>
        outcome == RequestFailed && folders == old(folders) && files == old(files)
      ensures reply.Some? && reply.value.statusOk && !(makeDirsOk && folder !in old(files)) ==>
        outcome == SaveFailed && folders == old(folders) && files == old(files)
      ensures reply.Some? && reply.value.statusOk && makeDirsOk && folder !in old(files) ==>
        var name := InferName(reply.value.urlPath, reply.value.disposition);
        var path := JoinPath(folder, name);
        folders == old(folders) + {folder} &&
        if !openOk || path in folders then
          outcome == SaveFailed && files == old(files)
        else
          outcome == Saved(name, path, TotalLength(reply.value.chunks)) &&
          files == old(files)[path := Concat(reply.value.chunks)]
    {
      if reply.None? || !reply.value.statusOk {
        return RequestFailed;
      }
      var response := reply.value;
      var name := InferName(response.urlPath, response.disposition);
      var made := MakeDirs(folder, makeDirsOk);
      if !made {
        return SaveFailed;
      }
      var path := JoinPath(folder, name);
      var isOpen := OpenForWriting(path, openOk);
      if !isOpen {
        return SaveFailed;
      }
      var total := WriteChunks(path, response.chunks);
      assert [] + Concat(response.chunks) == Concat(response.chunks);
      outcome := Saved(name, path, total);
    }

    /** The loop of `baixar_arquivo` over `iter_content`: every non-empty chunk is written to the open
        file and its length added to the count. */
    method WriteChunks(path: string, chunks: seq<seq<byte>>) returns (total: nat)
      requires path in files
      modifies this
      ensures folders == old(folders)
      ensures files == old(files)[path := old(files)[path] + Concat(chunks)]
      ensures total == TotalLength(chunks)
    {
      var start := files[path];
      total := 0;
      assert start + Concat(chunks[..0]) == start;
      for i := 0 to |chunks|
        invariant folders == old(folders)
        invariant files == old(files)[path := start + Concat(chunks[..i])]
        invariant total == TotalLength(chunks[..i])
      {
        var chunk := chunks[i];
        ConcatPrefixSucc(chunks, i);
        if chunk == [] {
          assert Concat(chunks[..i]) + chunk == Concat(chunks[..i]);
        } else {
          Append(path, chunk);
          assert start + Concat(chunks[..i]) + chunk == start + (Concat(chunks[..i]) + chunk);
          total := total + |chunk|;
        }
      }
      assert chunks[..|chunks|] == chunks;
    }
  }

  /** The count reported is the number of bytes in the file. */
  lemma SavedTotalIsFileSize(chunks: seq<seq<byte>>)
    ensures TotalLength(chunks) == |Concat(chunks)|
  {
    ConcatLength(chunks);
  }
}
