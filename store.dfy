/** The SmartStudy folder as an abstract store: a map from folder plus file
    name to the file's content. JSON files hold the value `json.load` would
    return; Markdown and text files hold their text. */
module Store {
  import opened Text
  import opened Lists

  /** The folders of one course under `revisions/<course id>/`. */
  datatype Area = CourseRoot | Topics | Notes | Flashcards | Quiz

  /** `Base` is the SmartStudy directory itself (courses.json, api_key.txt). */
  datatype Folder = Base | Revision(course: string, area: Area)

  datatype FileKey = FileKey(folder: Folder, name: string)

  datatype Course = Course(id: string, name: string, createdAt: string)

  /** One multiple-choice question as the generator returns it; nothing in
      the app checks the number of options or that the answer is one. */
  datatype Question = Question(question: string, options: seq<string>, answer: string)

  datatype Doc =
    | Plain(text: string)
    | NameList(items: seq<string>)
    | CourseList(courses: seq<Course>)
    | QuizData(questions: seq<Question>)

  type Files = map<FileKey, Doc>

  /** What each folder holds: course list and API key at the base, name
      lists for contents and topics, text for notes and decks, and in the
      quiz folder a question list (`.json`) or a fingerprint (`_hash.txt`). */
  predicate KindOk(k: FileKey, d: Doc) {
    match k.folder
    case Base => if k.name == "courses.json" then d.CourseList? else d.Plain?
    case Revision(_, area) =>
      match area
      case CourseRoot => d.NameList?
      case Topics => d.NameList?
      case Notes => d.Plain?
      case Flashcards => d.Plain?
      case Quiz => if EndsWith(k.name, ".json") then d.QuizData? else d.Plain?
  }

  predicate WellFormed(files: Files) {
    forall k :: k in files ==> KindOk(k, files[k])
  }

  // The persisted layout under the SmartStudy directory.

  const CoursesFile := FileKey(Base, "courses.json")
  const ApiKeyFile := FileKey(Base, "api_key.txt")

  function ContentListFile(course: string): FileKey {
    FileKey(Revision(course, CourseRoot), "content_list.json")
  }

  function TopicsFile(course: string, content: string): FileKey {
    FileKey(Revision(course, Topics), content + ".json")
  }

  /** The note of a topic, `notes/<content>_<topic>.md`. */
  function NoteFile(course: string, content: string, topic: string): FileKey {
    FileKey(Revision(course, Notes), content + "_" + topic + ".md")
  }

  /** The content-level (aggregate) deck, `flashcards/<content>.md`. */
  function DeckFile(course: string, content: string): FileKey {
    FileKey(Revision(course, Flashcards), content + ".md")
  }

  /** A topic-level deck, `flashcards/<content>_<topic>.md`. */
  function TopicDeckFile(course: string, content: string, topic: string): FileKey {
    FileKey(Revision(course, Flashcards), content + "_" + topic + ".md")
  }

  function QuizFile(course: string, content: string): FileKey {
    FileKey(Revision(course, Quiz), content + ".json")
  }

  /** The fingerprint of the deck a quiz was generated from. */
  function HashFile(course: string, content: string): FileKey {
    FileKey(Revision(course, Quiz), content + "_hash.txt")
  }

  /** The quiz folder tells its two kinds of file apart by the suffix. */
  lemma QuizFileKinds(course: string, content: string)
    ensures EndsWith(QuizFile(course, content).name, ".json")
    ensures !EndsWith(HashFile(course, content).name, ".json")
  {
    var q := QuizFile(course, content).name;
    var h := HashFile(course, content).name;
    assert q[|q| - 5..] == ".json";
    assert h[|h| - 1] == 't';
  }

  /** The names `os.listdir(folder)` returns. */
  function NamesIn(files: Files, folder: Folder): set<string> {
    set k | k in files && k.folder == folder :: k.name
  }

  /** The two name-list files: a course's content list and a content's
      topic list. */
  predicate IsListKey(k: FileKey) {
    k.folder.Revision? && (k.folder.area == CourseRoot || k.folder.area == Topics)
  }

  /** A name list as the pages load it: the stored list, or `[]` when the
      file does not exist. */
  function ListAt(files: Files, k: FileKey): seq<string>
    requires WellFormed(files) && IsListKey(k)
  {
    if k in files then files[k].items else []
  }

  function TextAt(files: Files, k: FileKey): string
    requires k in files && files[k].Plain?
  {
    files[k].text
  }

  /** The store after `for f in os.listdir(folder): if doomed(f): os.remove(...)`. */
  function Pruned(files: Files, folder: Folder, doomed: string -> bool): (r: Files)
    ensures forall k :: k in r ==> k in files && r[k] == files[k]
    ensures forall k :: k in r ==> !(k.folder == folder && doomed(k.name))
    ensures forall k :: k in files && !(k.folder == folder && doomed(k.name)) ==> k in r
  {
    map k | k in files && !(k.folder == folder && doomed(k.name)) :: files[k]
  }

  class Disk {
    var files: Files

    predicate Valid()
      reads this
    {
      WellFormed(files)
    }

    constructor (initial: Files)
      requires WellFormed(initial)
      ensures Valid() && files == initial
    {
      files := initial;
    }

    /** `os.path.exists`. */
    method Exists(k: FileKey) returns (b: bool)
      ensures b <==> k in files
    {
      b := k in files;
    }

    /** `open(path).read()` of a Markdown or text file. */
    method ReadText(k: FileKey) returns (t: string)
      requires k in files && files[k].Plain?
      ensures t == files[k].text
    {
      t := files[k].text;
    }

    /** `json.load(open(path))` of a JSON file. */
    method ReadDoc(k: FileKey) returns (d: Doc)
      requires k in files
      ensures d == files[k]
    {
      d := files[k];
    }

    /** A whole-file overwrite (`open(path, "w")` then one write or dump). */
    method Write(k: FileKey, d: Doc)
      requires Valid() && KindOk(k, d)
      modifies this
      ensures Valid()
      ensures files == old(files)[k := d]
    {
      files := files[k := d];
    }

    /** `os.remove`; the pages only call it on a file they know exists. */
    method Remove(k: FileKey)
      requires Valid() && k in files
      modifies this
      ensures Valid()
      ensures files == old(files) - {k}
    {
      files := files - {k};
    }

    /** `os.listdir(folder)`: every name once, in no particular order. */
    method ListDir(folder: Folder) returns (names: seq<string>)
      ensures Distinct(names)
      ensures Elems(names) == NamesIn(files, folder)
    {
      var rest := NamesIn(files, folder);
      names := [];
      while rest != {}
        invariant Distinct(names)
        invariant Elems(names) !! rest
        invariant Elems(names) + rest == NamesIn(files, folder)
        decreases rest
      {
        var n :| n in rest;
        assert Elems(names + [n]) == Elems(names) + {n};
        names := names + [n];
        rest := rest - {n};
      }
    }

    /** One clean-up loop of a delete: removes every file of `folder`
        whose name `doomed` accepts, one `os.remove` at a time. */
    method RemoveWhere(folder: Folder, doomed: string -> bool)
      requires Valid()
      modifies this
      ensures Valid()
      ensures files == Pruned(old(files), folder, doomed)
    {
      var names := ListDir(folder);
      ghost var before := files;
      var i := 0;
      while i < |names|
        invariant 0 <= i <= |names|
        invariant Valid()
        invariant files == map k | k in before && !(k.folder == folder && k.name in names[..i] && doomed(k.name)) :: before[k]
      {
        var k := FileKey(folder, names[i]);
        assert names[i] !in names[..i];
        assert names[..i + 1] == names[..i] + [names[i]];
        if doomed(names[i]) {
          assert names[i] in Elems(names);
          Remove(k);
        }
        i := i + 1;
      }
      assert names[..i] == names;
      assert forall k :: k in before && k.folder == folder ==> k.name in Elems(names);
    }

    /** `shutil.rmtree(revisions/<course>)`: the course's whole subtree. */
    method RemoveTree(course: string)
      requires Valid()
      modifies this
      ensures Valid()
      ensures forall k :: k in files <==> k in old(files) && !(k.folder.Revision? && k.folder.course == course)
      ensures forall k :: k in files ==> files[k] == old(files)[k]
    {
      files := map k | k in files && !(k.folder.Revision? && k.folder.course == course) :: files[k];
    }
  }
}
