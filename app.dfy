/** The session of the captioning tool: the state that the event handlers of `main` share
    (`tags`, `editing_tag`, `current_image_path`) together with the widget values they read and
    write (the caption field, the displayed image, the thumbnail list, the folder label, the tag
    input field) and the file system they persist to. */
module App {
  import opened Wrappers
  import opened Text
  import opened TagFile
  import opened TagList
  import opened Paths
  import opened Captions

  /** The message a handler puts in the snack bar, or what happened instead. */
  datatype Notice =
    | CaptionSaved
    | CaptionSaveError
    | NoImageSelected
    | TagDeleted(tag: string)
    | TagUpdated(oldTag: string, newTag: string)
    | TagNotFound(oldTag: string)
    | TagNameUnchanged
    | TagNameEmpty
      /** `list.remove` raised `ValueError` out of the handler; no message is shown. */
    | ValueErrorRaised

  /** The text of the folder label under the image. */
  datatype FolderLabel = NoFolderSelected | SelectedDirectory(path: string) | Cancelled | ErrorListingImages

  /** The image shown before any folder is picked. */
  const Placeholder: string := "https://via.placeholder.com/300"

  class Session {
    /** The file system: path to contents. */
    var files: map<string, string>
    var tags: seq<string>
    var editingTag: Option<string>
    var currentImagePath: Option<string>
    /** The source of the main image display. */
    var displayed: string
    /** The value of the caption text field. */
    var caption: string
    /** The value of the "Add New Tag" text field. */
    var tagField: string
    var folderLabel: FolderLabel
    /** The image paths shown as thumbnails, in order. */
    var thumbnails: seq<string>

    /** Every tag in the list is non-empty and has no whitespace at its ends. */
    ghost predicate Valid()
      reads this
    {
      forall k :: 0 <= k < |tags| ==> IsCleanTag(tags[k])
    }

    /** The start of `main`: empty selection and fields, then `load_tags()`. */
    constructor (files: map<string, string>, readOk: bool)
      ensures Valid()
      ensures this.files == files && tags == LoadedTags(files, readOk)
      ensures editingTag == None && currentImagePath == None
      ensures displayed == Placeholder && caption == "" && tagField == ""
      ensures folderLabel == NoFolderSelected && thumbnails == []
    {
      this.files := files;
      tags := [];
      editingTag := None;
      currentImagePath := None;
      displayed := Placeholder;
      caption := "";
      tagField := "";
      folderLabel := NoFolderSelected;
      thumbnails := [];
      new;
      LoadTags(readOk);
    }

    /** `load_tags`: replaces the list by what the tag file yields, or by the defaults. */
    method LoadTags(readOk: bool)
      modifies this`tags
      ensures Valid()
      ensures tags == LoadedTags(files, readOk)
    {
      tags := LoadedTags(files, readOk);
    }

    /** `save_tags_to_file`: writes each tag followed by a newline; a failed write is only logged.
        When the session invariant holds and no tag spans lines, the next `load_tags` gets the
        list back. */
    method SaveTagsToFile(writeOk: bool)
      modifies this`files
      ensures files == if writeOk then old(files)[TagsFileName := Serialise(tags)] else old(files)
      ensures writeOk && Valid() && tags != [] && (forall k :: 0 <= k < |tags| ==> NoBreak(tags[k])) ==>
        LoadedTags(files, true) == tags
    {
      var text := "";
      var i := 0;
      while i < |tags|
        invariant 0 <= i <= |tags|
        invariant text == Serialise(tags[..i])
        invariant files == old(files)
      {
        SerialiseSnoc(tags[..i], tags[i]);
        assert tags[..i + 1] == tags[..i] + [tags[i]];
        text := text + tags[i] + "\n";
        i := i + 1;
      }
      assert tags[..i] == tags;
      if writeOk {
        if Valid() && tags != [] && (forall k :: 0 <= k < |tags| ==> NoBreak(tags[k])) {
          assert forall k :: 0 <= k < |tags| ==> IsLineTag(tags[k]);
          SaveThenLoad(files, tags);
        }
        files := files[TagsFileName := text];
      }
    }

    /** `delete_tag`: removes the first occurrence and saves; an absent tag raises before any change. */
    method DeleteTag(tag: string, writeOk: bool) returns (n: Notice)
      requires Valid()
      modifies this`tags, this`files
      ensures Valid()
      ensures old(tag in tags) ==> tags == RemoveFirst(old(tags), tag) && n == TagDeleted(tag)
      ensures old(tag in tags) ==> files == if writeOk then old(files)[TagsFileName := Serialise(tags)] else old(files)
      ensures old(tag !in tags) ==> tags == old(tags) && files == old(files) && n == ValueErrorRaised
    {
      if tag !in tags {
        return ValueErrorRaised;
      }
      RemoveFirstCutsFirst(tags, tag);
      tags := RemoveFirst(tags, tag);
      SaveTagsToFile(writeOk);
      n := TagDeleted(tag);
    }

    /** `edit_tag`: makes `tag` the edit target, abandoning any previous one. */
    method EditTag(tag: string)
      modifies this`editingTag
      ensures editingTag == Some(tag)
    {
      editingTag := Some(tag);
    }

    /** `cancel_edit_tag`: leaves edit mode. */
    method CancelEditTag()
      modifies this`editingTag
      ensures editingTag == None
    {
      editingTag := None;
    }

    /** `save_edited_tag(oldTag, newTag)`: renames the first occurrence of `oldTag` and saves, or
        reports why not; edit mode ends in every case. */
    method SaveEditedTag(oldTag: string, newTag: string, writeOk: bool) returns (n: Notice)
      requires Valid()
      modifies this`tags, this`files, this`editingTag
      ensures Valid()
      ensures editingTag == None
      ensures tags == Renamed(old(tags), oldTag, newTag)
      ensures RenameApplies(old(tags), oldTag, newTag) ==>
        n == TagUpdated(oldTag, Strip(newTag))
        && files == if writeOk then old(files)[TagsFileName := Serialise(tags)] else old(files)
      ensures !RenameApplies(old(tags), oldTag, newTag) ==> files == old(files)
      ensures Strip(newTag) != [] && Strip(newTag) != oldTag && oldTag !in old(tags) ==> n == TagNotFound(oldTag)
      ensures Strip(newTag) == oldTag ==> n == TagNameUnchanged
      ensures Strip(newTag) == [] && oldTag != [] ==> n == TagNameEmpty
    {
      var name := Strip(newTag);
      if name != [] && name != oldTag {
        if oldTag in tags {
          tags := tags[FirstIndex(tags, oldTag) := name];
          SaveTagsToFile(writeOk);
          n := TagUpdated(oldTag, name);
        } else {
          n := TagNotFound(oldTag);
        }
      } else if name == oldTag {
        n := TagNameUnchanged;
      } else {
        n := TagNameEmpty;
      }
      editingTag := None;
    }

    /** `on_tag_click`: appends a space and the tag to the caption field. */
    method OnTagClick(tag: string)
      modifies this`caption
      ensures caption == old(caption) + " " + tag
    {
      caption := caption + " " + tag;
    }

    /** `add_tag`: appends the stripped text field value when it is non-empty and new, then saves
        and clears the field; otherwise nothing changes. */
    method AddTag(writeOk: bool) returns (added: bool)
      requires Valid()
      modifies this`tags, this`files, this`tagField
      ensures Valid()
      ensures tags == Added(old(tags), old(tagField))
      ensures added <==> tags != old(tags)
      ensures added ==> tagField == "" && files == if writeOk then old(files)[TagsFileName := Serialise(tags)] else old(files)
      ensures !added ==> tagField == old(tagField) && files == old(files)
    {
      ghost var expected := Added(tags, tagField);
      var t := Strip(tagField);
      added := t != [] && t !in tags;
      assert added <==> expected != tags;
      if added {
        assert expected == tags + [t];
        tags := tags + [t];
        SaveTagsToFile(writeOk);
        tagField := "";
      }
      assert tags == expected;
    }

    /** `save_caption(imagePath, text)`: writes the sidecar in full when an image is given. */
    method SaveCaption(imagePath: Option<string>, text: string, writeOk: bool) returns (n: Notice)
      modifies this`files
      ensures files == SavedFiles(old(files), imagePath, text, writeOk)
      ensures n == if !Given(imagePath) then NoImageSelected else if writeOk then CaptionSaved else CaptionSaveError
    {
      if Given(imagePath) {
        if writeOk {
          files := files[SidecarPath(imagePath.value) := text];
          n := CaptionSaved;
        } else {
          n := CaptionSaveError;
        }
      } else {
        n := NoImageSelected;
      }
    }

    /** `on_save_button_click`: saves the caption field for the session's selected image. */
    method OnSaveButtonClick(writeOk: bool) returns (n: Notice)
      modifies this`files
      ensures files == SavedFiles(old(files), currentImagePath, caption, writeOk)
      ensures n == if !Given(currentImagePath) then NoImageSelected else if writeOk then CaptionSaved else CaptionSaveError
      ensures Given(currentImagePath) && writeOk ==> LoadCaption(files, currentImagePath, true) == ReadText(caption)
      ensures Given(currentImagePath) && writeOk && '\r' !in caption ==> LoadCaption(files, currentImagePath, true) == caption
      ensures !(Given(currentImagePath) && writeOk) ==> files == old(files)
    {
      n := SaveCaption(currentImagePath, caption, writeOk);
    }

    /** `on_thumbnail_click(imagePath)`: selects and shows the image and loads its caption. */
    method OnThumbnailClick(imagePath: string, readOk: bool)
      modifies this`currentImagePath, this`displayed, this`caption
      ensures currentImagePath == Some(imagePath) && displayed == imagePath
      ensures caption == LoadCaption(files, Some(imagePath), readOk)
    {
      currentImagePath := Some(imagePath);
      displayed := imagePath;
      caption := LoadCaption(files, currentImagePath, readOk);
    }

    /** `on_directory_picked`: lists the chosen folder's images as thumbnails and shows the first
        with its caption. The assignment to `current_image_path` there binds a local variable of
        the handler, so the session's selected image is left as it was. */
    method OnDirectoryPicked(folder: Option<string>, listing: seq<string>, listOk: bool, readOk: bool)
      modifies this`folderLabel, this`thumbnails, this`displayed, this`caption
      ensures currentImagePath == old(currentImagePath)
      ensures !Given(folder) ==> folderLabel == Cancelled
      ensures Given(folder) && !listOk ==> folderLabel == ErrorListingImages
      ensures Given(folder) && listOk ==>
        folderLabel == SelectedDirectory(folder.value) && thumbnails == ImageFiles(folder.value, listing)
      ensures Given(folder) && listOk && thumbnails != [] ==>
        displayed == thumbnails[0] && caption == LoadCaption(files, Some(thumbnails[0]), readOk)
      ensures !(Given(folder) && listOk) ==> thumbnails == old(thumbnails)
      ensures !(Given(folder) && listOk && thumbnails != []) ==> displayed == old(displayed) && caption == old(caption)
    {
      if Given(folder) {
        folderLabel := SelectedDirectory(folder.value);
        if listOk {
          var images := ListImages(folder.value, listing);
          thumbnails := images;
          if images != [] {
            displayed := images[0];
            caption := LoadCaption(files, Some(images[0]), readOk);
          }
        } else {
          folderLabel := ErrorListingImages;
        }
      } else {
        folderLabel := Cancelled;
      }
    }
  }
}
