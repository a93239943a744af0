/** The content-level flashcard deck: the topic decks of a content, read in
    sorted file-name order, each stripped, joined with a blank line. The
    quiz page builds it once when it is missing; the revision page rebuilds
    it on every visit in content mode. */
module Decks {
  import opened Text
  import opened Lists
  import opened Store

  /** The topic-deck test of both pages: the name starts with
      `<content>_` and ends with `.md`. It is a plain prefix test, so it
      also accepts the decks of any content whose name starts with
      `<content>_`. */
  predicate IsTopicDeckName(name: string, content: string) {
    StartsWith(name, content + "_") && EndsWith(name, ".md")
  }

  function TopicDeckNames(files: Files, course: string, content: string): set<string> {
    set k | k in files && k.folder == Revision(course, Flashcards) && IsTopicDeckName(k.name, content) :: k.name
  }

  lemma TopicDeckNamesExist(files: Files, course: string, content: string)
    ensures forall n :: n in TopicDeckNames(files, course, content) ==>
      FileKey(Revision(course, Flashcards), n) in files && IsTopicDeckName(n, content)
  {
    forall n | n in TopicDeckNames(files, course, content)
      ensures FileKey(Revision(course, Flashcards), n) in files && IsTopicDeckName(n, content)
    {
      var k :| k in files && k.folder == Revision(course, Flashcards) && IsTopicDeckName(k.name, content) && k.name == n;
      assert k == FileKey(Revision(course, Flashcards), n);
    }
  }

  /** Filtering a full listing of the flashcard folder finds exactly the
      topic decks. */
  lemma ListedTopicDecks(files: Files, course: string, content: string, listing: seq<string>)
    requires Elems(listing) == NamesIn(files, Revision(course, Flashcards))
    ensures Elems(Filter(listing, n => IsTopicDeckName(n, content))) == TopicDeckNames(files, course, content)
  {
    var folder := Revision(course, Flashcards);
    var candidates := Filter(listing, n => IsTopicDeckName(n, content));
    forall n | n in TopicDeckNames(files, course, content) ensures n in Elems(candidates) {
      var k :| k in files && k.folder == folder && IsTopicDeckName(k.name, content) && k.name == n;
      assert n in NamesIn(files, folder);
      assert n in listing;
    }
    forall n | n in Elems(candidates) ensures n in TopicDeckNames(files, course, content) {
      assert n in listing;
      assert n in NamesIn(files, folder);
      var k :| k in files && k.folder == folder && k.name == n;
    }
  }

  /** Every named deck is a text file of the course's flashcard folder. */
  predicate DecksPresent(files: Files, course: string, names: seq<string>) {
    forall n :: n in names ==>
      FileKey(Revision(course, Flashcards), n) in files && files[FileKey(Revision(course, Flashcards), n)].Plain?
  }

  lemma TopicDecksPresent(files: Files, course: string, content: string, names: seq<string>)
    requires WellFormed(files)
    requires Elems(names) == TopicDeckNames(files, course, content)
    ensures DecksPresent(files, course, names)
  {
    TopicDeckNamesExist(files, course, content);
    forall n | n in names
      ensures FileKey(Revision(course, Flashcards), n) in files && files[FileKey(Revision(course, Flashcards), n)].Plain?
    {
      assert n in Elems(names);
      var k := FileKey(Revision(course, Flashcards), n);
      assert KindOk(k, files[k]);
    }
  }

  /** The stripped texts of the named decks, in the order given. */
  function StrippedDecks(files: Files, course: string, names: seq<string>): (r: seq<string>)
    requires DecksPresent(files, course, names)
    ensures |r| == |names|
  {
    seq(|names|, i requires 0 <= i < |names| =>
      Strip(TextAt(files, FileKey(Revision(course, Flashcards), names[i]))))
  }

  lemma StrippedDecksExtend(files: Files, course: string, names: seq<string>, i: nat)
    requires i < |names| && DecksPresent(files, course, names)
    ensures StrippedDecks(files, course, names[..i + 1])
      == StrippedDecks(files, course, names[..i]) + [Strip(TextAt(files, FileKey(Revision(course, Flashcards), names[i])))]
  {
    var longer := StrippedDecks(files, course, names[..i + 1]);
    var shorter := StrippedDecks(files, course, names[..i]);
    forall j | 0 <= j < i
      ensures longer[j] == shorter[j]
    {
      assert names[..i + 1][j] == names[..i][j];
    }
    assert longer[i] == Strip(TextAt(files, FileKey(Revision(course, Flashcards), names[i])));
  }

  /** The aggregate deck the pages write for `content`. */
  ghost function AggregateOf(files: Files, course: string, content: string): string
    requires WellFormed(files)
  {
    var names := Ascending(TopicDeckNames(files, course, content));
    TopicDecksPresent(files, course, content, names);
    Join("\n\n", StrippedDecks(files, course, names))
  }

  /** The aggregate deck, given its sorted list of topic decks. */
  lemma AggregateOfSorted(files: Files, course: string, content: string, names: seq<string>)
    requires WellFormed(files)
    requires names == Ascending(TopicDeckNames(files, course, content))
    ensures DecksPresent(files, course, names)
    ensures AggregateOf(files, course, content) == Join("\n\n", StrippedDecks(files, course, names))
  {
    TopicDecksPresent(files, course, content, names);
  }

  /** The two stores agree on the flashcards folder of `course`. */
  ghost predicate SameDeckFolder(a: Files, b: Files, course: string) {
    forall k: FileKey :: k.folder == Revision(course, Flashcards) ==> (k in a <==> k in b) && (k in a ==> a[k] == b[k])
  }

  /** The aggregate deck depends on the flashcards folder alone. */
  lemma AggregateDependsOnDecksOnly(a: Files, b: Files, course: string, content: string)
    requires WellFormed(a) && WellFormed(b) && SameDeckFolder(a, b, course)
    ensures TopicDeckNames(a, course, content) == TopicDeckNames(b, course, content)
    ensures AggregateOf(a, course, content) == AggregateOf(b, course, content)
  {
    assert TopicDeckNames(a, course, content) == TopicDeckNames(b, course, content);
    var names := Ascending(TopicDeckNames(a, course, content));
    TopicDecksPresent(a, course, content, names);
    TopicDecksPresent(b, course, content, names);
    assert StrippedDecks(a, course, names) == StrippedDecks(b, course, names);
  }

  /** The aggregate deck is never one of its own sources. */
  lemma AggregateIsNotATopicDeck(content: string)
    ensures !IsTopicDeckName(content + ".md", content)
  {
    assert (content + ".md")[|content|] == '.';
    assert (content + "_")[|content|] == '_';
  }

  /** The topic decks of content `A` include everything of a content named
      `A_B`: its aggregate deck and its topic decks. */
  lemma PrefixReachesLongerContent(a: string, b: string, topic: string)
    ensures IsTopicDeckName(a + "_" + b + ".md", a)
    ensures IsTopicDeckName(a + "_" + b + "_" + topic + ".md", a)
  {
    assert (a + "_" + b + ".md")[..|a + "_"|] == a + "_";
    assert (a + "_" + b + "_" + topic + ".md")[..|a + "_"|] == a + "_";
    assert (a + "_" + b + ".md")[|a + "_" + b|..] == ".md";
    assert (a + "_" + b + "_" + topic + ".md")[|a + "_" + b + "_" + topic|..] == ".md";
  }

  /** Two names in order are their own ascending listing. */
  lemma AscendingPair(a: string, b: string)
    requires Below(a, b)
    ensures Ascending({a, b}) == [a, b]
  {
    assert Elems([a, b]) == {a, b};
    SortedUnique([a, b], Ascending({a, b}));
  }

  lemma OrderedDeckNames()
    ensures Below("C_A.md", "C_B.md")
  {
    assert "C_A.md"[1..] == "_A.md" && "C_B.md"[1..] == "_B.md";
    assert "_A.md"[1..] == "A.md" && "_B.md"[1..] == "B.md";
  }

  /** The two example decks, read from the store and stripped. */
  lemma ExampleDecksStripped(files: Files, course: string)
    requires DecksPresent(files, course, ["C_A.md", "C_B.md"])
    requires TextAt(files, FileKey(Revision(course, Flashcards), "C_A.md")) == "### A\n- x"
    requires TextAt(files, FileKey(Revision(course, Flashcards), "C_B.md")) == "### B\n- y"
    ensures StrippedDecks(files, course, ["C_A.md", "C_B.md"]) == ["### A\n- x", "### B\n- y"]
  {
    assert Trimmed("### A\n- x");
    assert Trimmed("### B\n- y");
  }

  lemma JoinPair(sep: string, a: string, b: string)
    ensures Join(sep, [a, b]) == a + sep + b
  {
    assert [a, b][1..] == [b];
  }

  /** Two topic decks `C_A.md` and `C_B.md` give "### A\n- x\n\n### B\n- y":
      sorted by name, stripped, joined with one blank line. */
  lemma TwoTopicExample(files: Files, course: string)
    requires WellFormed(files)
    requires TopicDeckNames(files, course, "C") == {"C_A.md", "C_B.md"}
    requires TextAt(files, FileKey(Revision(course, Flashcards), "C_A.md")) == "### A\n- x"
    requires TextAt(files, FileKey(Revision(course, Flashcards), "C_B.md")) == "### B\n- y"
    ensures AggregateOf(files, course, "C") == "### A\n- x\n\n### B\n- y"
  {
    OrderedDeckNames();
    AscendingPair("C_A.md", "C_B.md");
    AggregateOfSorted(files, course, "C", ["C_A.md", "C_B.md"]);
    ExampleDecksStripped(files, course);
    JoinPair("\n\n", "### A\n- x", "### B\n- y");
  }

  /** Reads and joins the topic decks of `content` (the `for file in
      sorted(...)` loop of both pages). It only reads. */
  method CombineTopicDecks(disk: Disk, course: string, content: string) returns (combined: string, found: bool)
    requires disk.Valid()
    ensures combined == AggregateOf(disk.files, course, content)
    ensures found <==> TopicDeckNames(disk.files, course, content) != {}
  {
    var folder := Revision(course, Flashcards);
    var listing := disk.ListDir(folder);
    var candidates := Filter(listing, n => IsTopicDeckName(n, content));
    ListedTopicDecks(disk.files, course, content, listing);
    FilterKeepsDistinct(listing, n => IsTopicDeckName(n, content));
    var names := SortNames(candidates);
    SortListingIsAscending(candidates);
    TopicDecksPresent(disk.files, course, content, names);
    var decks: seq<string> := [];
    for i := 0 to |names|
      invariant decks == StrippedDecks(disk.files, course, names[..i])
    {
      assert names[i] in Elems(names);
      var text := disk.ReadText(FileKey(folder, names[i]));
      StrippedDecksExtend(disk.files, course, names, i);
      decks := decks + [Strip(text)];
    }
    assert names[..|names|] == names;
    combined := Join("\n\n", decks);
    found := names != [];
    HeadInElems(names);
  }
}
