# Image captioning tool: session core in Dafny

The tool is a desktop program for captioning a folder of images. Its event handlers share a
small session state: the tag list, the tag being edited and the selected image. They also
read and write two kinds of flat file:

- `tags.txt`, the tag list, one tag per line;
- a caption sidecar `<image path without extension>.txt` for each image.

This project models that core. The file system is a `map<string, string>` from path to
contents. Every read or write the handlers attempt takes a `readOk`/`writeOk` flag that says
whether it succeeds.

- `Text`: `str.strip()` over the whitespace set of Python's `str.isspace()`; the newline
  translation of a text-mode read (`ReadText`: `\r\n` and a lone `\r` become `\n`);
  splitting text into pieces at every `\n` and every `\r` (so `\r\n` leaves an empty
  piece between the two, which the tag parser drops; `TagFile.ParseReadText` proves the tags
  are the same as for the translated text); ASCII lower-casing.
- `TagFile`: parsing the tag file (strip each line, drop empty ones, fall back to
  `["cat", "dog", "house", "car"]`) and serialising a list (each tag followed by `"\n"`). The
  round trip is proved: re-reading a written list of one-line, non-empty, stripped tags gives
  the list back.
- `TagList`: the three list edits, on values. `Added` appends a stripped, non-empty, new tag.
  `Renamed` replaces the first occurrence. `RemoveFirst` is `list.remove`.
- `Paths`: the POSIX `os.path.splitext` split point and the sidecar path derived from it;
  `os.path.join`; the five-extension image test; the directory scan as a function and as the
  loop `ListImages`.
- `Captions`: loading and saving a caption against the file-system map. A load returns the
  sidecar through `ReadText`, so a caption saved with a `\r` does not load back as written.
- `App.Session`: a class whose fields are the closure variables of `main` (`tags`,
  `editing_tag`, `current_image_path`), plus the widget values the handlers read and write
  (caption field, displayed image, thumbnails, folder label, tag input field) and the file
  system. Each handler is a method. Its `ensures` give the complete new state in terms of the
  functions above. Snack-bar messages come back as a `Notice` value.

Behaviour reproduced as written:

- At `src/main.py:268`, `on_directory_picked` assigns `current_image_path` without a `nonlocal`
  declaration, so the name is local to the handler. After a folder pick the image display and
  the caption field show the first image, but the session's selection does not move.
  `OnDirectoryPicked` promises `currentImagePath == old(currentImagePath)`. A later "Save
  Caption" therefore writes to the previously selected image's sidecar, or reports that no
  image is selected.
- `save_edited_tag` does not check whether the new name is already in the list, so a rename can
  create a duplicate (`RenameCanDuplicate`). The session invariant `Valid()` covers only what
  every handler keeps: each tag is non-empty and stripped.
- An absent tag makes `delete_tag` raise `ValueError`, and nothing in the handler catches it.
  The model returns `ValueErrorRaised` and changes nothing. Nothing in the code stops the
  process from continuing.
- If `os.listdir` fails, the thumbnail column is not cleared, because the clear comes after the
  listing loop. Only the folder label changes.
- A list emptied by deletes is saved as an empty file, which the next start-up loads as the
  four default tags (`EmptyListReloadsDefaults`).
- Two images whose paths differ only in the extension (`photo.jpg`, `photo.png`) share one
  caption file (`SidecarShared`).

## Model

| member | source | states |
|---|---|---|
| Text.IsSpace | src/main.py:54 | the characters `str.strip()` removes: exactly those for which Python's `str.isspace()` holds |
| Text.Strip | src/main.py:54 | the result is no longer than the input and has no whitespace at either end |
| Text.StripInfix | src/main.py:54 | the stripped result is the infix of the input left after cutting off all-whitespace ends |
| Text.StripNoBreak | src/main.py:54 | stripping a break-free line gives a break-free result |
| Text.StripFixes | src/main.py:219 | stripping returns the string unchanged exactly when it has no whitespace at its ends |
| Text.StripBlank | src/main.py:54 | a whitespace-only line strips to the empty string |
| Text.SplitLines | src/main.py:54 | the file's lines contain no line break and only characters of the text |
| Text.SplitLinesCons | src/main.py:54 | a break-free line followed by a break is exactly the first line |
| Text.ReadText | src/main.py:99 | the text a read returns holds no carriage return and is no longer than the stored text |
| Text.ReadTextPlain | src/main.py:99 | stored text without a carriage return reads back unchanged |
| Text.ReadTextTwice | src/main.py:99 | reading already-read text changes nothing |
| Text.ReadTextCrLf | src/main.py:99 | a `\r\n` line end reads as one `\n` |
| Text.ReadTextExamples | src/main.py:99 | `"a\r\nb"` and `"a\rb"` both read as `"a\nb"` |
| Text.LowerTwice | src/main.py:244 | lower-casing is idempotent |
| Text.Lower | src/main.py:244 | lower-casing keeps the length and folds each character independently |
| TagFile.ParseLines | src/main.py:54 | the comprehension yields at most one tag per line, each non-empty and stripped |
| TagFile.ParseEmptyLine | src/main.py:54 | an empty line contributes no tag |
| TagFile.ParseReadText | src/main.py:54 | parsing the stored tag file gives the same tags as parsing it after text-mode newline translation, so `\r\n` and `\r` line ends yield the tags the source's line iteration yields |
| TagFile.ParseLinesNoBreak | src/main.py:54 | lines without breaks give tags without breaks |
| TagFile.Parse | src/main.py:54 | every parsed tag is non-empty, stripped and on one line |
| TagFile.LoadedTags | src/main.py:50-60 | the loaded list is never empty, is the parsed file when that is non-empty, and is exactly the default four tags when the file is missing, unreadable or yields no tag |
| TagFile.Serialise | src/main.py:117-118 | each tag followed by `\n`, in list order: the text is empty exactly for the empty list and otherwise ends in `\n`; its meaning is given by `SerialiseSnoc` and `SplitSerialise` |
| TagFile.SerialiseSnoc | src/main.py:117-118 | writing one more tag appends that tag and a newline to the text |
| TagFile.SplitSerialise | src/main.py:114-118 | the lines of the written text are the tags in list order, then one empty remainder |
| TagFile.ParseCleanLines | src/main.py:54 | lines that are already clean tags, followed by empty lines, parse to themselves |
| TagFile.ParseBlankLines | src/main.py:54-55 | whitespace-only lines yield no tag |
| TagFile.ParseSerialise | src/main.py:114-118 | parsing the written text of one-line stripped non-empty tags returns the same list |
| TagFile.SaveThenLoad | src/main.py:50-55 | after saving a non-empty list of such tags, loading the tag file restores it |
| TagFile.EmptyListReloadsDefaults | src/main.py:55 | the empty file written for an empty list loads as the four default tags |
| TagFile.BlankFileGivesDefaults | src/main.py:54-55 | a tag file of blank lines loads as the four default tags |
| TagList.FirstIndex | src/main.py:140 | `list.index` returns a position holding the value with no earlier occurrence |
| TagList.RemoveFirst | src/main.py:124 | `list.remove` shortens the list by one |
| TagList.RemoveFirstAt | src/main.py:124 | each position before the first occurrence keeps its element and each later one holds its successor |
| TagList.RemoveFirstCutsFirst | src/main.py:124 | removal cuts out exactly the first occurrence and keeps the order of everything else |
| TagList.RemoveFirstMultiset | src/main.py:124 | removal takes away one copy of the value and nothing else |
| TagList.RemoveFirstUnique | src/main.py:122-125 | deleting from a duplicate-free list leaves it duplicate-free and the tag absent |
| TagList.Added | src/main.py:217-222 | the list is unchanged exactly when the stripped input is empty or present; otherwise the old list is a prefix and the stripped input is the one new last element; no duplicates and clean tags are preserved |
| TagList.AddPersists | src/main.py:217-222 | an added tag survives the save and a reload of the tag file |
| TagList.Renamed | src/main.py:136-143 | the length is kept; when the stripped name is non-empty, differs from the old name and the old name is present, only the first index of the old name changes, to the stripped new name; otherwise nothing changes |
| TagList.RenameCanDuplicate | src/main.py:138-140 | renaming "cat" to "dog" in ["cat", "dog"] yields a duplicate, since no uniqueness check is made |
| TagList.RenameFreshUnique | src/main.py:138-140 | renaming to a name not in the list keeps a duplicate-free list duplicate-free |
| Paths.RFind | src/main.py:82 | the result is the last index holding the character, or -1 when it does not occur |
| Paths.ExtStartUnique | src/main.py:82 | a path has at most one extension start |
| Paths.ExtStart | src/main.py:82 | the split point is an extension start (last dot, no separator after it, a non-dot before it in the name), or the path length when there is none |
| Paths.ExtStartFound | src/main.py:82 | an extension start is the last dot and lies after the last separator |
| Paths.SidecarPath | src/main.py:82 | the sidecar path is the image path cut at its extension start, or the whole path when there is none, followed by ".txt" |
| Paths.SidecarOfPhoto | src/main.py:96 | the sidecar of photo.jpg is photo.txt |
| Paths.SidecarShared | src/main.py:82 | photo.png and photo.jpg share one sidecar |
| Paths.SidecarOfDoubleExtension | src/main.py:82 | only the final extension is replaced |
| Paths.SidecarOfHiddenName | src/main.py:82 | a name whose only dot is leading keeps its full path before ".txt" |
| Paths.SidecarOfDottedFolder | src/main.py:82 | a dot in a directory name is not an extension |
| Paths.Join | src/main.py:245 | an absolute name replaces the folder; otherwise the result is folder and name, with a `/` between them exactly when the folder is non-empty and does not already end in `/` |
| Paths.IsImageName | src/main.py:244 | the lower-cased name ends in `.png`, `.jpg`, `.jpeg`, `.gif` or `.bmp` |
| Paths.ImageNameIgnoresCase | src/main.py:244 | a name and its lower-cased form pass or fail the extension test together |
| Paths.ImageFiles | src/main.py:243-245 | the scan yields at most one path per listed name |
| Paths.ImageIndices | src/main.py:244 | the image positions are increasing, each names an image, and every image position is included |
| Paths.ImageFilesSelects | src/main.py:243-245 | the k-th scan result is the k-th image name of the listing joined to the folder, so the result is the order-preserving subsequence of image names |
| Paths.ImageFilesSnoc | src/main.py:243-245 | scanning one more name appends its join exactly when it is an image name |
| Paths.ListImages | src/main.py:241-245 | the scanning loop's result equals the scan function |
| Paths.ScanSkipsMiddle | src/main.py:243-245 | a three-entry listing whose middle entry is not an image yields the joins of the outer two, in order |
| Paths.ScanOfMixedListing | src/main.py:243-245 | a folder listing `a.JPG`, `b.txt`, `c.png` yields the first and the last joined to the folder |
| Paths.UpperCaseJpgIsImage | src/main.py:244 | "a.JPG" passes the extension test |
| Paths.PngIsImage | src/main.py:244 | "c.png" passes the extension test |
| Paths.TxtIsNotImage | src/main.py:244 | "b.txt" fails the extension test |
| Captions.Given | src/main.py:95 | Python's truth test on the image path: present and non-empty |
| Captions.LoadCaption | src/main.py:94-104 | the sidecar's contents after text-mode newline translation when an image is given, the sidecar exists and the read succeeds; "" in every other case; never a carriage return |
| Captions.SavedFiles | src/main.py:80-85 | after a successful save for a given image, its sidecar holds exactly the saved text, and loading it returns that text when it has no carriage return; every other file is untouched; with no image or a failed write nothing changes |
| Captions.SaveOverwrites | src/main.py:84-85 | a second save replaces the first text in full: the caption loads as if only the second save had happened |
| Captions.CarriageReturnsLoadAsNewlines | src/main.py:84-99 | saving `"a\r\nb"` or `"a\rb"` and loading again gives `"a\nb"` |
| Captions.SaveLeavesOthers | src/main.py:80-85 | saving a caption does not change what an image with another sidecar loads |
| App.Session.constructor | src/main.py:45-62 | a new session has no selection, no edit target, empty fields, the placeholder image and the tags loaded from the file system |
| App.Session.LoadTags | src/main.py:50-60 | the tag list becomes the loaded list, which keeps the session invariant |
| App.Session.SaveTagsToFile | src/main.py:114-120 | a successful write leaves the tag file holding the serialised list; a failed one changes nothing; when the session invariant holds and the list is non-empty with every tag on one line, reloading the written file gives the list back |
| App.Session.DeleteTag | src/main.py:122-129 | a present tag has its first occurrence removed and the list is saved; an absent tag raises and nothing changes |
| App.Session.EditTag | src/main.py:131-134 | the edit target becomes the tag, replacing any previous one |
| App.Session.SaveEditedTag | src/main.py:136-153 | the list becomes the renamed list and is saved only when a rename happened; the notice distinguishes updated, not found, unchanged and empty; the edit target is cleared in every case |
| App.Session.CancelEditTag | src/main.py:155-158 | the edit target is cleared |
| App.Session.OnTagClick | src/main.py:213-215 | the caption becomes the old caption, a space and the tag |
| App.Session.AddTag | src/main.py:217-225 | the list becomes the added list; on an addition the list is saved and the input field cleared; otherwise nothing changes |
| App.Session.SaveCaption | src/main.py:80-92 | the file system becomes the saved-caption map, and the notice reports no image, saved or error |
| App.Session.OnSaveButtonClick | src/main.py:106-108 | the caption field is saved for the session's selected image; the notice is no image, saved or error; after a successful save the caption loads back as its text-mode read, which is the field itself when it has no carriage return; otherwise no file changes |
| App.Session.OnThumbnailClick | src/main.py:229-236 | the image becomes selected and displayed, and the caption field holds its loaded caption |
| App.Session.OnDirectoryPicked | src/main.py:238-277 | a given folder is labelled and its images become the thumbnails; the first is displayed with its caption loaded; the selected image never changes; a cancelled pick or a failed listing only changes the label |

## Left out

- Widget construction, layout, width constants, theming, `update_tag_list` and `page.update`
  are rendering only. No session state depends on them. Snack-bar messages are modelled as
  the `Notice` a handler returns.
- `print` logging of errors is left out. It changes no state.
- Real file and directory I/O is left out. Files are a map from path to the decoded text. Every
  `open`, read or write failure is a `readOk`/`writeOk` flag. A path that exists but cannot be
  read is folded into `readOk == false`. Newline translation on read is modelled
  (`Text.ReadText`). Character encoding, and newline translation on write on platforms that
  use `\r\n`, are not modelled.
- Paths are compared as strings. The model does not know that a relative and an absolute path,
  a path with `..`, or a symbolic link can name the same file. For example, `tags.txt` and
  the sidecar of `<working directory>/tags.png` are one file in the source but two keys in
  the map, so `Captions.SavedFiles` and `App.Session.SaveTagsToFile` leaving "every other
  file" untouched holds for keys, not for files on disk.
- `SaveTagsToFile` and `SaveCaption`: a write that fails part-way (leaving a truncated file) is
  not modelled. A write either succeeds in full or changes nothing.
- The directory listing and its order are platform-dependent, so they are an input to
  `OnDirectoryPicked`. Whether the listing succeeds is a flag.
- Building the thumbnail widgets and their click closures is left out. A thumbnail click is
  `OnThumbnailClick` with the path the closure captured.
- Caption generation through a remote vision API is not part of this source file. `src/main.py`
  has no such code, so nothing of it is modelled.
- `Text.Lower` folds only `A`–`Z`. For the five-extension test this gives the same answer as
  Python's `str.lower()`. The only other characters whose lower-case form contains an ASCII
  letter are KELVIN SIGN (to `k`) and LATIN CAPITAL LETTER I WITH DOT ABOVE (to `i` plus a
  combining dot), and neither can complete one of the five endings.
- `Paths.ExtStart` and `Paths.Join` follow the POSIX rules (`/` separator, leading dots of a
  name are not an extension). The Windows rules (backslash, drive letters) are not modelled.
- Tags containing an interior line break are accepted by `add_tag` and by a rename. Once saved,
  such a tag splits into several tags on the next load. The round-trip lemmas therefore require
  one-line tags, and nothing promises more.
