/** The topic page: the topic list of one content item and the delete of a
    topic, which removes only the topic's note. */
module TopicPage {
  import opened Text
  import opened Lists
  import opened Store
  import opened Decks

  /** Lines 43-47: the topic list, `[]` before the first add. */
  method LoadTopics(disk: Disk, course: string, content: string) returns (topics: seq<string>)
    requires disk.Valid()
    ensures topics == ListAt(disk.files, TopicsFile(course, content))
  {
    var present := disk.Exists(TopicsFile(course, content));
    if present {
      var doc := disk.ReadDoc(TopicsFile(course, content));
      topics := doc.items;
    } else {
      topics := [];
    }
  }

  /** Lines 106-110: a non-empty topic not yet listed is appended and the
      list written back; otherwise nothing is written. */
  method AddTopic(disk: Disk, course: string, content: string, topic: string)
    requires disk.Valid()
    modifies disk
    ensures disk.Valid()
    ensures var topics := ListAt(old(disk.files), TopicsFile(course, content));
      if topic != "" && topic !in topics
      then disk.files == old(disk.files)[TopicsFile(course, content) := NameList(AddName(topics, topic))]
      else disk.files == old(disk.files)
  {
    var topics := LoadTopics(disk, course, content);
    if topic != "" && topic !in topics {
      disk.Write(TopicsFile(course, content), NameList(AddName(topics, topic)));
    }
  }

  function WithoutTopic(topic: string): string -> bool {
    t => t != topic
  }

  /** The store after deleting `topic`: the list without it is written, its
      note is gone, and every other file, its deck included, is kept. */
  function TopicDeleted(files: Files, course: string, content: string, topic: string): (r: Files)
    requires WellFormed(files)
    ensures WellFormed(r)
    ensures TopicsFile(course, content) in r
    ensures r[TopicsFile(course, content)]
         == NameList(Filter(ListAt(files, TopicsFile(course, content)), WithoutTopic(topic)))
    ensures topic !in r[TopicsFile(course, content)].items
    ensures NoteFile(course, content, topic) !in r
    ensures forall k :: k != TopicsFile(course, content) && k != NoteFile(course, content, topic) ==>
      (k in r <==> k in files) && (k in r ==> r[k] == files[k])
  {
    var topics := Filter(ListAt(files, TopicsFile(course, content)), WithoutTopic(topic));
    files[TopicsFile(course, content) := NameList(topics)] - {NoteFile(course, content, topic)}
  }

  /** Lines 158-165. */
  method DeleteTopic(disk: Disk, course: string, content: string, topic: string)
    requires disk.Valid()
    modifies disk
    ensures disk.Valid()
    ensures disk.files == TopicDeleted(old(disk.files), course, content, topic)
  {
    var topics := LoadTopics(disk, course, content);
    disk.Write(TopicsFile(course, content), NameList(Filter(topics, WithoutTopic(topic))));
    var noteKey := NoteFile(course, content, topic);
    var present := disk.Exists(noteKey);
    if present {
      disk.Remove(noteKey);
    }
  }

  /** A deleted topic's deck stays in the flashcards folder and keeps
      feeding the content's combined deck. */
  lemma DeletedTopicStillAggregated(files: Files, course: string, content: string, topic: string)
    requires WellFormed(files)
    ensures var r := TopicDeleted(files, course, content, topic);
      && (TopicDeckFile(course, content, topic) in files ==> TopicDeckFile(course, content, topic) in r)
      && TopicDeckNames(r, course, content) == TopicDeckNames(files, course, content)
      && AggregateOf(r, course, content) == AggregateOf(files, course, content)
  {
    var r := TopicDeleted(files, course, content, topic);
    assert SameDeckFolder(r, files, course);
    AggregateDependsOnDecksOnly(r, files, course, content);
  }
}
