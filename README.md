# Verified model of three file and playlist scripts

This project models three small Python utility scripts and proves properties of the models in Dafny.

- `organizar_arquivos.py` sorts the regular files at the top of a folder into sub-folders
  `subpasta_1`, `subpasta_2`, and so on. No sub-folder receives more than `files_per_folder` files.
- `save_links.py` downloads a URL into a local folder. It picks a file name from the URL path, then
  from the `Content-Disposition` header, then a default. It joins that name to the folder and writes
  the response body chunk by chunk while counting the bytes.
- `criar_playlist.py` reads song titles from a text file. It strips each line and drops the blank
  ones. It searches one track per title, keeping the URIs found apart from the titles not found.
  Then it adds the found tracks to a playlist in calls of at most 100.

Files:

- `common.dfy`: an `Option` type and concatenation of a sequence of sequences.
- `text.dfy`: the parts of Python's `str` the scripts use: `isspace`, `strip`, `strip(chars)`,
  `split` with a one-character separator, `startswith`.
- `organizer.dfy`: the organiser. It has a specification of the loop as functions over a state
  (`Step`, `Run`, `Organize`). Lemmas read the trace of filesystem calls. The class `SourceDir`
  holds the directory's entries, and its method `OrganizeIntoFolders` runs the loop and is proved
  equal to the specification.
- `downloader.dfy`: name inference, `os.path.join`, and the class `Disk` with the download and its
  chunk loop.
- `playlist.dfy`: line cleaning, the search loop, and the batching of the add calls.

How the environment enters the model:

- There is no filesystem and no network. The outcome of each call the scripts make is an input.
- In the organiser, `mkdirFails` lists the folder indices whose `os.makedirs` raises, and
  `moveFails` lists the files whose `shutil.move` raises. `os.listdir` is an optional listing,
  where `None` means it raised.
- In the downloader, the response is an `Option<Response>` (`None` when `requests.get` raised),
  and two booleans say whether `os.makedirs` and `open` succeed.
- In the playlist script, there is one search reply per title, and `failing` lists the add calls
  that raise.

What the code does, and the model follows:

- A failed move does not advance `file_count`, so the next file goes to the same folder.
- When the very first move of a batch fails, the folder stays empty and the next file opens
  the next folder.
- A failed `os.makedirs` sets `file_count` to `files_per_folder` and uses up the folder index. The
  current file is not moved.
- `files_per_folder == 0` with at least one file raises `ZeroDivisionError` at line 40 of
  `organizar_arquivos.py`. That exception is not caught. The model gives it the outcome
  `DivisionByZero`, and nothing is moved.

## Model

| member | source | states |
|---|---|---|
| `Organizer.SourceDir.OrganizeIntoFolders` | organizar_arquivos.py:15-80 | The method's outcome, its final entries and the calls it makes equal the specification `Organize` on the old state. |
| `Organizer.SourceDir.MakeDirs` | organizar_arquivos.py:56-57 | `os.makedirs(exist_ok=True)` succeeds exactly when the environment allows it and no non-directory has that name. On success the folder exists and an existing folder is untouched. On failure nothing changes. |
| `Organizer.SourceDir.MoveFile` | organizar_arquivos.py:73-75 | The move succeeds exactly when the environment allows it, the name is a regular file and the destination is a folder. On success the file leaves the top level and joins the folder. On failure nothing changes. |
| `Organizer.Candidates` | organizar_arquivos.py:22-25 | A name is a candidate exactly when it is listed and is a regular file. There are no more candidates than listed names, and a listing without repeats gives candidates without repeats. |
| `Organizer.EarlyReturnsTouchNothing` | organizar_arquivos.py:15-40 | A non-directory, a failing listing, an empty file list and a zero batch size each end the run with their own outcome, moving and creating nothing. The loop runs exactly when none of them applies. |
| `Organizer.FoldersTriedConsecutively` | organizar_arquivos.py:44-66 | The folders `os.makedirs` is asked for are `subpasta_1`, `subpasta_2`, ... in that order, with no index twice. A run that reaches the loop asks for at least one. |
| `Organizer.AtMostKPerFolder` | organizar_arquivos.py:48-80 | Whatever fails, no folder receives more than `files_per_folder` files in one run. |
| `Organizer.DirectoriesNeverMoved` | organizar_arquivos.py:23-25 | Every sub-directory, earlier `subpasta_*` folders included, is still a top-level directory afterwards and has lost none of its contents. |
| `Organizer.FailedMoveKeepsFolder` | organizar_arquivos.py:69-80 | A failed move in the middle of a batch leaves the file where it is and keeps `file_count`. The next file is moved into the same folder. |
| `Organizer.FailedFirstMoveOpensNextFolder` | organizar_arquivos.py:50-80 | When the first move of a batch fails, `file_count` stays a multiple of `k` and the next file's first call is `os.makedirs` of the next folder. For the rest of the run, nothing more is moved into the failed folder. |
| `Organizer.FailedMakeDirsSkipsFolder` | organizar_arquivos.py:56-64 | A failed `os.makedirs` moves nothing, sets `file_count` to `k` and advances the index. The next file's first call asks for the next folder, and for the rest of the run nothing is moved into the skipped one. |
| `Organizer.RunKeepsClosed` | organizar_arquivos.py:50-80 | Once a folder's index is used up and the loop aims elsewhere, the rest of the run moves nothing into that folder. |
| `Organizer.OrganizeWithoutFailures` | organizar_arquivos.py:44-76 | With no failure and no clash with existing `subpasta_*` names, the calls made are exactly those of `IdealTrace`. The `i`-th file ends up in `subpasta_{i div k + 1}`. |
| `Organizer.IdealFolderSizes` | organizar_arquivos.py:40 | With no failure, exactly `ceil(n / k)` folders are created. Every folder but the last receives `k` files, the last receives 1 to `k`, later ones none. All `n` files are moved, in listing order. |
| `Organizer.IdealFolderContents` | organizar_arquivos.py:48-76 | With no failure, folder `j` receives exactly the slice `files[(j-1)*k : j*k]`, in order. |
| `Organizer.IdealTraceFolderCount` | organizar_arquivos.py:40 | The failure-free run creates `ceil(n / k)` folders, the count the script prints. |
| `Organizer.IdealTraceMovesAll` | organizar_arquivos.py:48-76 | The failure-free run moves every file once, in listing order. |
| `Organizer.DecimalInjective` | organizar_arquivos.py:52 | Different folder indices have different decimal texts. |
| `Organizer.FolderNameInjective` | organizar_arquivos.py:52 | Different indices give different folder names `subpasta_{index}`. |
| `Organizer.BlockSizes` | organizar_arquivos.py:40 | Of the blocks of `k` files, every one before block `ceil(n/k)` is full, that block holds 1 to `k`, and later ones are empty. |
| `Organizer.CeilBounds` | organizar_arquivos.py:40 | The integer `Ceil(n, k)` is the real ceiling of `n / k`: `(Ceil - 1) * k < n <= Ceil * k`, and it is at least 1 when there are files. |
| `Organizer.CeilSucc` | organizar_arquivos.py:40 | One more file adds a folder exactly when the file count was a multiple of `k`. |
| `Downloader.BaseName` | save_links.py:29 | `os.path.basename` holds no `/` and is no longer than the path. |
| `Downloader.BaseNameSuffix` | save_links.py:29 | The base name is the part of the path after its last `/`, or the whole path when there is no `/`. |
| `Downloader.BaseNameUnique` | save_links.py:29 | Any `/`-free suffix that is the whole path or follows a `/` is the base name. |
| `Downloader.BaseNameOfPlainName` | save_links.py:29 | A path without `/` is its own base name. |
| `Downloader.FirstNamingPart` | save_links.py:38-40 | The index the comprehension's first element comes from names the file, or equals the number of parts when no part does. |
| `Downloader.FirstNamingPartIsFirst` | save_links.py:38 | No part before that index names the file. |
| `Downloader.FirstNamingPartFinds` | save_links.py:38-39 | `fname_parts` is non-empty exactly when some `;`-part, stripped, starts with `filename=`. |
| `Downloader.NamingPartHasValue` | save_links.py:40 | A part that names the file splits on `=` into at least two pieces, so `split('=')[1]` exists. |
| `Downloader.PartValue` | save_links.py:40 | The value of a naming part holds no `=` and neither starts nor ends with a quote or a space. |
| `Downloader.PartValueKeepsOut` | save_links.py:40 | The value holds no character that the part lacks. |
| `Downloader.HeaderFileNameFound` | save_links.py:35-40 | The header gives a name exactly when one of its `;`-separated parts names the file. |
| `Downloader.HeaderFileNameClean` | save_links.py:38-40 | A header name holds neither `;` nor `=`, and its ends are neither quotes nor spaces. |
| `Downloader.HeaderFileNameOfAttachment` | save_links.py:37-40 | `attachment; filename="<name>"` gives back `<name>` for every name free of `;` and `=` whose ends are not quotes or spaces. |
| `Downloader.InferName` | save_links.py:28-45 | The chosen name is never empty, and it is the URL's base name whenever that is not empty. |
| `Downloader.InferNameDefault` | save_links.py:34-45 | With an empty URL name, and either no header or no `;`-part that names the file, the name is the default `arquivo_baixado_sem_nome`. |
| `Downloader.InferNameFromHeader` | save_links.py:34-45 | With an empty URL name, the first `;`-part of the header that names the file decides: its stripped value when that is non-empty, and the default name otherwise. |
| `Downloader.FirstNamingPartAt` | save_links.py:38-40 | When part `j` names the file and no earlier part does, `fname_parts[0]` is part `j`. |
| `Downloader.InferNameFromUrlIsPlain` | save_links.py:29 | A name taken from the URL holds no `/`. |
| `Downloader.ReportPdfExample` | save_links.py:34-40 | A URL ending in `/` with `attachment; filename="report.pdf"` saves as `report.pdf`. |
| `Downloader.UrlNameExample` | save_links.py:28-34 | `/files/archive.zip` saves as `archive.zip` whatever the headers say. |
| `Downloader.DefaultNameExample` | save_links.py:41-45 | With no URL name and no header, the default name is used. |
| `Downloader.JoinPath` | save_links.py:53 | `os.path.join` returns an absolute name unchanged. Otherwise the path starts with the folder and ends with the name. Between them there is exactly one `/` when the folder is non-empty and does not end with `/`, and nothing otherwise. |
| `Downloader.JoinPathBaseName` | save_links.py:53 | The saved path's last component is the chosen name's last component, whatever the folder. |
| `Downloader.Disk.MakeDirs` | save_links.py:50 | `os.makedirs(exist_ok=True)` succeeds exactly when the system allows it and no file has that path. It adds the folder and leaves the files alone. |
| `Downloader.Disk.OpenForWriting` | save_links.py:60 | `open(path, 'wb')` succeeds exactly when the system allows it and the path is not a folder. Then the file exists and is empty. |
| `Downloader.Disk.Append` | save_links.py:68 | `f.write(chunk)` appends the chunk to that file only. |
| `Downloader.Disk.WriteChunks` | save_links.py:64-69 | After the loop, the file holds its old bytes followed by all chunks in order, and the count is the total of the chunk lengths. |
| `Downloader.Disk.Download` | save_links.py:16-90 | A raising request or a failing status changes nothing (`RequestFailed`). A failing `makedirs` or `open` gives `SaveFailed`. Otherwise the file at `JoinPath(folder, name)` holds exactly the body, and the reported count is its length. |
| `Downloader.SavedTotalIsFileSize` | save_links.py:69 | The byte count `total_baixado` equals the size of the written file. |
| `Seqs.NonEmptyKeepsConcat` | save_links.py:67-69 | Skipping the empty chunks changes neither the bytes written nor the count. |
| `Seqs.ConcatAppend` | save_links.py:66-68 | Writing two runs of chunks one after the other writes their concatenation. |
| `Seqs.ConcatLength` | save_links.py:69 | The length of the concatenated chunks is the total of their lengths. |
| `Text.Trim` | save_links.py:40 | After `str.strip(chars)`, neither end of the result is a stripped character. |
| `Text.TrimLeftSuffix` | criar_playlist.py:53 | Stripping the left end keeps a suffix, and everything before it is whitespace (or one of the given characters). |
| `Text.TrimRightPrefix` | criar_playlist.py:53 | Stripping the right end keeps a prefix, and everything after it is stripped. |
| `Text.TrimEmpty` | criar_playlist.py:53 | `strip` gives the empty string exactly when every character is one it removes. |
| `Text.TrimKeepsOut` | save_links.py:38-40 | Stripping adds no character. |
| `Text.TrimIdempotent` | criar_playlist.py:53 | Stripping twice is stripping once. |
| `Text.TrimWrapped` | save_links.py:40 | Stripping a piece wrapped in removed characters gives the piece back when its own ends are kept. |
| `Text.Split` | save_links.py:38 | `str.split(sep)` gives at least one piece, no piece holds the separator, joining the pieces with it gives back the text, and there is one piece exactly when the separator does not occur. |
| `Text.SplitKeepsOut` | save_links.py:38 | A character the text lacks is in no piece. |
| `Text.SplitJoin` | save_links.py:38 | Splitting pieces joined by the separator gives back the pieces, for separator-free pieces. |
| `Text.SplitTwo` | save_links.py:40 | `a + sep + b` with separator-free `a` and `b` splits into exactly `[a, b]`. |
| `Playlist.CleanLines` | criar_playlist.py:53 | There are no more titles than lines, and no title is empty. |
| `Playlist.CleanLinesStripped` | criar_playlist.py:53 | No title starts or ends with whitespace. |
| `Playlist.CleanLinesAppend` | criar_playlist.py:53 | Lines are cleaned one by one: cleaning two halves gives the titles of each half, in order. |
| `Playlist.CleanLinesIdempotent` | criar_playlist.py:53 | Cleaning the titles again changes nothing. |
| `Playlist.CleanLinesEmpty` | criar_playlist.py:53-56 | The reader finds no title, and returns `[]`, exactly when every line is blank. |
| `Playlist.Classify` | criar_playlist.py:75-88 | A title is found exactly when the search returned a track, and then the first track's URI is kept. Otherwise the title itself is recorded as not found. |
| `Playlist.SearchTracks` | criar_playlist.py:66-90 | Each title is classified by the reply to its own search. The URIs returned are the hits and the titles returned are the misses, both in title order. Every title lands in one of the two lists, so their lengths add up to the number of titles. Every track found is among the URIs, and every title whose search returned nothing or raised is among those not found. |
| `Playlist.HitsKeepAll` | criar_playlist.py:77-81 | The URI of every title found is in the list of URIs. |
| `Playlist.MissesKeepAll` | criar_playlist.py:83-88 | Every title not found or failing is in the list of titles not found. |
| `Playlist.PartitionCount` | criar_playlist.py:66-90 | Every title lands in exactly one of the two lists. |
| `Playlist.PartitionLossless` | criar_playlist.py:66-90 | The two lists lose nothing and keep the order: merging them back by outcome rebuilds every title's outcome. |
| `Playlist.SearchExample` | criar_playlist.py:72-88 | When the first title's search raises, that title is recorded as not found and the loop goes on, so the second title is still found. |
| `Playlist.BatchesConcat` | criar_playlist.py:116-118 | The batches, sent in order, send every URI once, in order. |
| `Playlist.BatchesSizes` | criar_playlist.py:116-117 | There are `ceil(n / 100)` batches. All hold 100 URIs except the last, which holds 1 to 100. |
| `Playlist.BatchAt` | criar_playlist.py:116-117 | Batch `j` is the slice `uris[100*j : 100*j + 100]`. |
| `Playlist.TwoHundredFiftyExample` | criar_playlist.py:116-117 | 250 URIs are added in calls of 100, 100 and 50. |
| `Playlist.AddTracks` | criar_playlist.py:107-122 | With no URIs, no call is made. Otherwise the calls made are the batches in order. Every call but the last succeeded. The run ends `AllAdded` with every batch sent, or `Stopped` at the first call that raised. |

## Left out

- Printing, `input`, `sys.exit` and the `__main__` blocks are left out. They only report, or pick
  the arguments.
- Authentication (`get_spotify_client`) is not modelled. It is a call into Spotify's client library.
- Playlist creation (`criar_playlist_spotify`) is not modelled for the same reason. Its only effect
  the rest uses is the id it returns.
- The Spotify search and `playlist_add_items` calls are inputs: one reply per title, and the set of
  add calls that raise. A reply without the expected fields (`KeyError`, `IndexError`) is a failed
  search, as the `except Exception` branch treats it.
- Reading `musicas.txt` is not modelled: opening the file, decoding UTF-8, and the `sys.exit` on a
  missing or unreadable file. The lines are an input, and line endings are whitespace that `strip`
  removes.
- `requests.get`, its timeouts and its exception classes are not modelled. The request either
  raises, with the same observable result for every exception class, or yields a status, a URL
  path, an optional `Content-Disposition` value and the body chunks.
- `urlparse` is not modelled: the path part of the URL is an input.
- The header is looked up case-insensitively by `requests`. That lookup is not modelled: its
  result is the `Option` input.
- No exception can arise from writing in the middle of the body. A failing `f.write` or a connection
  drop during `iter_content` is not modelled.
- Downloads are not concurrent. The body arrives as a finite sequence of chunks, and the 8192-byte
  chunk size is not modelled because chunk boundaries do not change the bytes written.
- The KB figure `total_baixado / 1024` is floating point and only printed, so it is not modelled.
- `math.ceil(num_files / files_per_folder)` is floating point and only printed. The model uses the
  integer ceiling `Organizer.Ceil`, which agrees with it while the quotient is exact as a float.
- `files_per_folder` is a natural number. A negative value, which Python's `%` and `/` would accept,
  is not modelled.
- `os.makedirs` may create missing parent folders, but the organiser only creates direct children of
  the source folder. In the downloader, the destination folder is one path and its parents are not
  modelled.
- The directory listing's order is an input. `os.listdir` promises no order, and the model proves
  its properties for every order.
- `shutil.move` is modelled as an atomic rename within the source directory. Its copy-and-delete
  fallback across devices and a destination that already holds the name are left to the
  `moveFails` input.
- Path separators are POSIX `/`. Windows separators and drive letters in `os.path.join` and
  `os.path.basename` are not modelled.
