/** The home page: the course list, adding and deleting a course, and the
    API key kept in `api_key.txt` and the session. */
module App {
  import opened Wrappers
  import opened Text
  import opened Lists
  import opened Store
  import opened SessionState

  /** `load_courses()` (lines 31-35): the stored list, `[]` when there is
      no course file. */
  function CoursesIn(files: Files): seq<Course>
    requires WellFormed(files)
  {
    if CoursesFile in files then files[CoursesFile].courses else []
  }

  method LoadCourses(disk: Disk) returns (courses: seq<Course>)
    requires disk.Valid()
    ensures courses == CoursesIn(disk.files)
  {
    courses := [];
    var present := disk.Exists(CoursesFile);
    if present {
      var doc := disk.ReadDoc(CoursesFile);
      courses := doc.courses;
    }
  }

  /** `save_courses(courses)` (lines 37-39). */
  method SaveCourses(disk: Disk, courses: seq<Course>)
    requires disk.Valid()
    modifies disk
    ensures disk.Valid()
    ensures disk.files == old(disk.files)[CoursesFile := CourseList(courses)]
  {
    disk.Write(CoursesFile, CourseList(courses));
  }

  /** Saving and loading the course list is a round trip. */
  method SaveThenLoadCourses(initial: Files, courses: seq<Course>) returns (loaded: seq<Course>)
    requires WellFormed(initial)
    ensures loaded == courses
  {
    var disk := new Disk(initial);
    SaveCourses(disk, courses);
    loaded := LoadCourses(disk);
  }

  /** The ids of the listed courses are pairwise different. */
  predicate UniqueIds(courses: seq<Course>) {
    forall i, j :: 0 <= i < j < |courses| ==> courses[i].id != courses[j].id
  }

  /** Lines 138-147: a non-empty name adds a course with the given fresh
      id and creation time at the end of the list; an empty one changes
      nothing. Unlike contents and topics, a course name may repeat. */
  method AddCourse(disk: Disk, name: string, id: string, createdAt: string)
    requires disk.Valid()
    modifies disk
    ensures disk.Valid()
    ensures name != "" ==>
      disk.files == old(disk.files)[CoursesFile := CourseList(CoursesIn(old(disk.files)) + [Course(id, name, createdAt)])]
    ensures name == "" ==> disk.files == old(disk.files)
    ensures UniqueIds(CoursesIn(old(disk.files))) && (forall c :: c in CoursesIn(old(disk.files)) ==> c.id != id) ==>
      UniqueIds(CoursesIn(disk.files))
  {
    var courses := LoadCourses(disk);
    if name != "" {
      SaveCourses(disk, courses + [Course(id, name, createdAt)]);
      assert forall i :: 0 <= i < |courses| ==> courses[i] in courses;
    }
  }

  function OtherId(id: string): Course -> bool {
    (c: Course) => c.id != id
  }

  /** The store after deleting course `id`: the list without it, and
      nothing left under `revisions/<id>`. */
  function CourseDeleted(files: Files, id: string): (r: Files)
    requires WellFormed(files)
    ensures WellFormed(r)
    ensures CoursesFile in r && r[CoursesFile] == CourseList(Filter(CoursesIn(files), OtherId(id)))
    ensures forall c :: c in r[CoursesFile].courses ==> c.id != id
    ensures forall k :: k in r ==> !(k.folder.Revision? && k.folder.course == id)
    ensures forall k :: k != CoursesFile && !(k.folder.Revision? && k.folder.course == id) ==>
      (k in r <==> k in files) && (k in r ==> r[k] == files[k])
  {
    var kept := map k | k in files && !(k.folder.Revision? && k.folder.course == id) :: files[k];
    kept[CoursesFile := CourseList(Filter(CoursesIn(files), OtherId(id)))]
  }

  /** Lines 185-188: save the filtered list, then remove the course's
      folder tree. */
  method DeleteCourse(disk: Disk, id: string)
    requires disk.Valid()
    modifies disk
    ensures disk.Valid()
    ensures disk.files == CourseDeleted(old(disk.files), id)
  {
    var courses := LoadCourses(disk);
    SaveCourses(disk, Filter(courses, OtherId(id)));
    disk.RemoveTree(id);
  }

  /** Lines 98-103 and 108-113: a non-empty input is stripped, written to
      `api_key.txt` and put in the session; an empty one changes nothing. */
  method SaveApiKey(disk: Disk, session: Session, input: string)
    requires disk.Valid()
    modifies disk, session`apiKey
    ensures disk.Valid()
    ensures input != "" ==>
      && disk.files == old(disk.files)[ApiKeyFile := Plain(Strip(input))]
      && session.apiKey == Some(Strip(input))
    ensures input == "" ==> disk.files == old(disk.files) && session.apiKey == old(session.apiKey)
  {
    if input != "" {
      var key := Strip(input);
      disk.Write(ApiKeyFile, Plain(key));
      session.apiKey := Some(key);
    }
  }

  /** Lines 60-62 and 118-120: with no key in the session, the stored key,
      stripped, is put there. */
  method RestoreApiKey(disk: Disk, session: Session)
    requires disk.Valid()
    modifies session`apiKey
    ensures old(session.apiKey).None? && ApiKeyFile in disk.files ==>
      session.apiKey == Some(Strip(TextAt(disk.files, ApiKeyFile)))
    ensures !(old(session.apiKey).None? && ApiKeyFile in disk.files) ==> session.apiKey == old(session.apiKey)
  {
    var present := disk.Exists(ApiKeyFile);
    if present && session.apiKey.None? {
      var stored := disk.ReadText(ApiKeyFile);
      session.apiKey := Some(Strip(stored));
    }
  }

  /** Saving a whitespace-only key stores the empty key, which the pages
      treat as missing even when the environment has one. */
  method BlankKeyStopsPages(initial: Files) returns (key: string)
    requires WellFormed(initial)
    ensures key == ""
  {
    var disk := new Disk(initial);
    var session := new Session();
    SaveApiKey(disk, session, "   ");
    assert AllSpace("   ");
    key := ApiKeyFor(session.apiKey, Some("sk-from-env"));
  }

  /** A key saved on the home page survives a new session: restoring it
      from the file gives the stripped key back. */
  method SavedKeyIsRestored(initial: Files, input: string) returns (restored: Option<string>)
    requires WellFormed(initial) && input != ""
    ensures restored == Some(Strip(input))
  {
    var disk := new Disk(initial);
    var first := new Session();
    SaveApiKey(disk, first, input);
    var key := Strip(input);
    assert disk.files[ApiKeyFile] == Plain(key);
    ghost var saved := disk.files;
    var second := new Session();
    assert disk.files == saved;
    RestoreApiKey(disk, second);
    assert second.apiKey == Some(Strip(key));
    DoubleStrip(input);
    restored := second.apiKey;
  }

  lemma DoubleStrip(s: string)
    ensures Strip(Strip(s)) == Strip(s)
  {
  }
}
