/** The course page: the course's content list and the delete of a content
    item, which cleans up the files named after it. */
module CoursePage {
  import opened Text
  import opened Lists
  import opened Store

  /** Lines 37-41: the content list, `[]` before the first add. */
  method LoadContentList(disk: Disk, course: string) returns (list: seq<string>)
    requires disk.Valid()
    ensures list == ListAt(disk.files, ContentListFile(course))
  {
    var present := disk.Exists(ContentListFile(course));
    if present {
      var doc := disk.ReadDoc(ContentListFile(course));
      list := doc.items;
    } else {
      list := [];
    }
  }

  /** Lines 76-80: a non-empty name not yet listed is appended and the list
      written back; otherwise nothing is written. */
  method AddContent(disk: Disk, course: string, name: string)
    requires disk.Valid()
    modifies disk
    ensures disk.Valid()
    ensures var list := ListAt(old(disk.files), ContentListFile(course));
      if name != "" && name !in list
      then disk.files == old(disk.files)[ContentListFile(course) := NameList(AddName(list, name))]
      else disk.files == old(disk.files)
  {
    var list := LoadContentList(disk, course);
    if name != "" && name !in list {
      disk.Write(ContentListFile(course), NameList(AddName(list, name)));
    }
  }

  /** The files the delete of content `item` removes: its topic list
      (exact name), and every note, deck and quiz file whose name is
      `<item>.md` / `<item>.json` or starts with `<item>_`. */
  predicate DeletedWithContent(k: FileKey, course: string, item: string) {
    && k.folder.Revision?
    && k.folder.course == course
    && match k.folder.area
      case CourseRoot => false
      case Topics => k.name == item + ".json"
      case Notes => StartsWith(k.name, item + "_")
      case Flashcards => k.name == item + ".md" || StartsWith(k.name, item + "_")
      case Quiz => k.name == item + ".json" || StartsWith(k.name, item + "_")
  }

  function WithoutItem(item: string): string -> bool {
    c => c != item
  }

  /** The tests of the three clean-up loops. */
  function NoteDoomed(item: string): string -> bool {
    n => StartsWith(n, item + "_")
  }

  function DeckDoomed(item: string): string -> bool {
    n => n == item + ".md" || StartsWith(n, item + "_")
  }

  function QuizDoomed(item: string): string -> bool {
    n => n == item + ".json" || StartsWith(n, item + "_")
  }

  /** The store after deleting content `item` of `course`: the content list
      without `item` is written, no file named after `item` is left, and
      every other file is kept as it was. */
  function ContentDeleted(files: Files, course: string, item: string): (r: Files)
    requires WellFormed(files)
    ensures WellFormed(r)
    ensures ContentListFile(course) in r
    ensures r[ContentListFile(course)] == NameList(Filter(ListAt(files, ContentListFile(course)), WithoutItem(item)))
    ensures item !in r[ContentListFile(course)].items
    ensures forall k :: k in r && k != ContentListFile(course) ==> !DeletedWithContent(k, course, item)
    ensures forall k :: k != ContentListFile(course) && !DeletedWithContent(k, course, item) ==>
      (k in r <==> k in files) && (k in r ==> r[k] == files[k])
  {
    var list := Filter(ListAt(files, ContentListFile(course)), WithoutItem(item));
    (map k | k in files && !DeletedWithContent(k, course, item) :: files[k])[ContentListFile(course) := NameList(list)]
  }

  /** Lines 152-182: write the filtered list, remove the topic list if it
      exists, then one clean-up loop over each of the notes, flashcards
      and quiz folders. */
  method DeleteContent(disk: Disk, course: string, item: string)
    requires disk.Valid()
    modifies disk
    ensures disk.Valid()
    ensures disk.files == ContentDeleted(old(disk.files), course, item)
  {
    var list := LoadContentList(disk, course);
    disk.Write(ContentListFile(course), NameList(Filter(list, WithoutItem(item))));
    var topicKey := TopicsFile(course, item);
    var present := disk.Exists(topicKey);
    if present {
      disk.Remove(topicKey);
    }
    assert disk.files == old(disk.files)[ContentListFile(course) := NameList(Filter(list, WithoutItem(item)))]
                         - {topicKey};
    ghost var listed := disk.files;
    disk.RemoveWhere(Revision(course, Notes), NoteDoomed(item));
    disk.RemoveWhere(Revision(course, Flashcards), DeckDoomed(item));
    disk.RemoveWhere(Revision(course, Quiz), QuizDoomed(item));
    DeleteSteps(old(disk.files), listed, course, item);
  }

  /** The four steps of the delete add up to `ContentDeleted`. */
  lemma DeleteSteps(files: Files, listed: Files, course: string, item: string)
    requires WellFormed(files)
    requires listed == files[ContentListFile(course) := NameList(Filter(ListAt(files, ContentListFile(course)), WithoutItem(item)))]
                        - {TopicsFile(course, item)}
    ensures Pruned(Pruned(Pruned(listed, Revision(course, Notes), NoteDoomed(item)),
                          Revision(course, Flashcards), DeckDoomed(item)),
                   Revision(course, Quiz), QuizDoomed(item))
         == ContentDeleted(files, course, item)
  {
    var r := Pruned(Pruned(Pruned(listed, Revision(course, Notes), NoteDoomed(item)),
                           Revision(course, Flashcards), DeckDoomed(item)),
                    Revision(course, Quiz), QuizDoomed(item));
    var d := ContentDeleted(files, course, item);
    forall k
      ensures k in r <==> k in d
    {
      var pruned :=
        || (k.folder == Revision(course, Notes) && NoteDoomed(item)(k.name))
        || (k.folder == Revision(course, Flashcards) && DeckDoomed(item)(k.name))
        || (k.folder == Revision(course, Quiz) && QuizDoomed(item)(k.name));
      assert k in r <==> k in listed && !pruned;
      if k.folder.Revision? && k.folder.course == course {
        match k.folder.area {
          case CourseRoot =>
          case Topics =>
            assert k == TopicsFile(course, item) <==> k.name == item + ".json";
          case Notes =>
            assert pruned <==> NoteDoomed(item)(k.name);
          case Flashcards =>
            assert pruned <==> DeckDoomed(item)(k.name);
          case Quiz =>
            assert pruned <==> QuizDoomed(item)(k.name);
        }
      }
      assert pruned || k == TopicsFile(course, item) <==> DeletedWithContent(k, course, item);
    }
    assert forall k :: k in r ==> r[k] == d[k];
  }

  /** Deleting `item` also deletes the notes, decks and quiz files of any
      content whose name extends `item_`, while that content's list entry
      and topic list stay. */
  lemma DeleteReachesLongerContent(files: Files, course: string, item: string, other: string, topic: string)
    requires WellFormed(files)
    requires StartsWith(other, item + "_")
    ensures var r := ContentDeleted(files, course, item);
      && NoteFile(course, other, topic) !in r
      && DeckFile(course, other) !in r
      && TopicDeckFile(course, other, topic) !in r
      && QuizFile(course, other) !in r
      && HashFile(course, other) !in r
      && (TopicsFile(course, other) in files ==> TopicsFile(course, other) in r)
      && (other in ListAt(files, ContentListFile(course)) ==> other in r[ContentListFile(course)].items)
  {
    var p := item + "_";
    StartsWithExtend(other, p, "_" + topic + ".md");
    StartsWithExtend(other, p, ".md");
    StartsWithExtend(other, p, ".json");
    StartsWithExtend(other, p, "_hash.txt");
    assert other + "_" + topic + ".md" == other + ("_" + topic + ".md");
    assert other != item;
    SuffixInjective(other, item, ".json");
  }
}
