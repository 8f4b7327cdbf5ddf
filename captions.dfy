/** The caption store: one plain-text sidecar file per image, read on selection and rewritten in
    full on save. The file system is a map from path to contents; whether a read or a write
    succeeds is supplied by the caller. */
module Captions {
  import opened Wrappers
  import opened Text
  import opened Paths

  /** Python's truth test on an optional path (`if image_path:`): neither None nor empty. */
  predicate Given(p: Option<string>) {
    p.Some? && p.value != []
  }

  /** `load_caption`: the sidecar's contents as a text-mode read returns them (`\r\n` and `\r`
      become `\n`), or "" when there is no image, no sidecar, or the read fails. */
  function LoadCaption(files: map<string, string>, imagePath: Option<string>, readOk: bool): (r: string)
    ensures !Given(imagePath) || !readOk ==> r == ""
    ensures Given(imagePath) && SidecarPath(imagePath.value) !in files ==> r == ""
    ensures Given(imagePath) && SidecarPath(imagePath.value) in files && readOk ==>
      r == ReadText(files[SidecarPath(imagePath.value)])
    ensures '\r' !in r
  {
    if Given(imagePath) then
      var path := SidecarPath(imagePath.value);
      if path in files && readOk then ReadText(files[path]) else ""
    else ""
  }

  /** The file system after `save_caption`: with an image and a successful write, exactly that image's
      sidecar now holds the text, which loads back as written unless it contains a carriage
      return; in every other case nothing changes. */
  function SavedFiles(files: map<string, string>, imagePath: Option<string>, text: string, writeOk: bool)
    : (r: map<string, string>)
    ensures Given(imagePath) && writeOk ==> SidecarPath(imagePath.value) in r && r[SidecarPath(imagePath.value)] == text
    ensures Given(imagePath) && writeOk && '\r' !in text ==> LoadCaption(r, imagePath, true) == text
    ensures !(Given(imagePath) && writeOk) ==> r == files
    ensures forall q :: q in files && !(Given(imagePath) && q == SidecarPath(imagePath.value)) ==>
      q in r && r[q] == files[q]
    ensures forall q :: q in r ==> q in files || (Given(imagePath) && q == SidecarPath(imagePath.value))
  {
    if Given(imagePath) && writeOk then
      var r := files[SidecarPath(imagePath.value) := text];
      ReadTextPlain(text);
      r
    else files
  }

  /** A save overwrites: saving twice for one image leaves only the second text, as a read sees it. */
  lemma SaveOverwrites(files: map<string, string>, imagePath: Option<string>, first: string, second: string)
    requires Given(imagePath)
    ensures LoadCaption(SavedFiles(SavedFiles(files, imagePath, first, true), imagePath, second, true), imagePath, true)
      == LoadCaption(SavedFiles(files, imagePath, second, true), imagePath, true)
  {
  }

  /** A caption saved with a carriage return does not load back as written: a sidecar holding
      `"a\r\nb"` or `"a\rb"` loads as `"a\nb"`. */
  lemma CarriageReturnsLoadAsNewlines(files: map<string, string>, imagePath: Option<string>)
    requires Given(imagePath)
    ensures LoadCaption(SavedFiles(files, imagePath, "a\r\nb", true), imagePath, true) == "a\nb"
    ensures LoadCaption(SavedFiles(files, imagePath, "a\rb", true), imagePath, true) == "a\nb"
  {
    ReadTextExamples();
  }

  /** Saving one image's caption does not change what any image with another sidecar loads. */
  lemma SaveLeavesOthers(files: map<string, string>, p: Option<string>, q: Option<string>, text: string,
                         writeOk: bool, readOk: bool)
    requires Given(p) && Given(q) && SidecarPath(p.value) != SidecarPath(q.value)
    ensures LoadCaption(SavedFiles(files, p, text, writeOk), q, readOk) == LoadCaption(files, q, readOk)
  {
  }
}
