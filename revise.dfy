/** The flashcard revision page: pick the notes to revise (one topic's note,
    or the content's topic decks combined), load the deck or generate it
    once, split it into cards and show the card at the session's index. */
module RevisePage {
  import opened Wrappers
  import opened Text
  import opened Store
  import opened Decks
  import opened Cards
  import opened SessionState

  /** Topic revision (`selected_topic_for_revision` is set) or content
      revision. */
  datatype Mode = TopicMode(content: string, topic: string) | ContentMode(content: string)

  /** How a visit ends. `IndexOutOfRange` is the `IndexError` of `cards[index]`. */
  datatype ReviseOutcome =
    | NoApiKey
    | NoteMissing
    | BlankNotes
    | GeneratorError
    | NoCards
    | IndexOutOfRange(cards: seq<string>, index: nat)
    | Showing(cards: seq<string>, index: nat)

  /** An outcome, the store afterwards and whether the generator was called. */
  datatype Visit = Visit(outcome: ReviseOutcome, files: Files, called: bool)

  /** Lines 138-147: split the deck and pick the card at `index`. */
  function ShowCards(text: string, index: nat): (out: ReviseOutcome)
    ensures out.NoCards? <==> text == ""
    ensures out.Showing? || out.IndexOutOfRange? ==>
      ValidCards(out.cards) && Join("\n", out.cards) == text && out.index == index
    ensures out.Showing? <==> text != "" && index < |SplitCards(text)|
  {
    var cards := SplitCards(text);
    NoCardsIffEmpty(text);
    JoinSplit(text);
    SplitIsValid(text);
    if cards == [""] then NoCards
    else if index < |cards| then Showing(cards, index)
    else IndexOutOfRange(cards, index)
  }

  /** Lines 91-136: stop on blank notes; load the stored deck, stripped,
      or else generate it from the notes, strip the reply and store it. */
  function FromNotes(files: Files, notes: string, deck: FileKey, index: nat, gen: string -> Reply<string>): Visit
    requires WellFormed(files) && deck.folder.Revision? && deck.folder.area == Flashcards
  {
    if Strip(notes) == "" then Visit(BlankNotes, files, false)
    else if deck in files then Visit(ShowCards(Strip(TextAt(files, deck)), index), files, false)
    else match gen(notes)
      case Failed => Visit(GeneratorError, files, true)
      case Generated(reply) =>
        Visit(ShowCards(Strip(reply), index), files[deck := Plain(Strip(reply))], true)
  }

  /** One visit of the page, given the resolved API key and the session's
      `flashcard_index` (0 when absent). Topic revision reads the topic's
      note and keeps its deck in `<content>_<topic>.md`; content revision
      rewrites `<content>.md` with the combined topic decks first and then
      revises that. */
  ghost function ReviseVisit(files: Files, course: string, mode: Mode, apiKey: string, index: nat,
                             gen: string -> Reply<string>): Visit
    requires WellFormed(files)
  {
    if apiKey == "" then Visit(NoApiKey, files, false)
    else match mode
      case TopicMode(content, topic) =>
        if NoteFile(course, content, topic) !in files then Visit(NoteMissing, files, false)
        else FromNotes(files, TextAt(files, NoteFile(course, content, topic)),
                       TopicDeckFile(course, content, topic), index, gen)
      case ContentMode(content) =>
        var combined := AggregateOf(files, course, content);
        FromNotes(files[DeckFile(course, content) := Plain(combined)], combined, DeckFile(course, content), index, gen)
  }

  /** Lines 26-147 of the page. */
  method RunRevisePage(disk: Disk, session: Session, course: string, mode: Mode, env: Option<string>,
                       gen: string -> Reply<string>)
    returns (out: ReviseOutcome, called: bool)
    requires disk.Valid()
    modifies disk
    ensures disk.Valid()
    ensures Visit(out, disk.files, called)
         == ReviseVisit(old(disk.files), course, mode, ApiKeyFor(session.apiKey, env),
                        session.flashcardIndex.GetOr(0), gen)
  {
    var key := ApiKeyFor(session.apiKey, env);
    if key == "" {
      return NoApiKey, false;
    }
    var notes: string;
    var deckKey: FileKey;
    match mode {
      case TopicMode(content, topic) =>
        var noteKey := NoteFile(course, content, topic);
        var present := disk.Exists(noteKey);
        if !present {
          return NoteMissing, false;
        }
        notes := disk.ReadText(noteKey);
        deckKey := TopicDeckFile(course, content, topic);
      case ContentMode(content) =>
        var combined, _ := CombineTopicDecks(disk, course, content);
        deckKey := DeckFile(course, content);
        disk.Write(deckKey, Plain(combined));
        notes := combined;
    }
    if Strip(notes) == "" {
      return BlankNotes, false;
    }
    var text: string;
    var cached := disk.Exists(deckKey);
    if cached {
      var stored := disk.ReadText(deckKey);
      text := Strip(stored);
      called := false;
    } else {
      called := true;
      var reply := gen(notes);
      if reply.Failed? {
        return GeneratorError, true;
      }
      text := Strip(reply.value);
      disk.Write(deckKey, Plain(text));
    }
    out := ShowCards(text, session.flashcardIndex.GetOr(0));
  }

  /** The generator runs exactly on a topic visit with an API key, a
      non-blank note and no deck yet; content revision never calls it. */
  lemma GeneratesOnlyForNewTopicDeck(files: Files, course: string, mode: Mode, apiKey: string, index: nat,
                                     gen: string -> Reply<string>)
    requires WellFormed(files)
    ensures ReviseVisit(files, course, mode, apiKey, index, gen).called <==>
      && apiKey != ""
      && mode.TopicMode?
      && NoteFile(course, mode.content, mode.topic) in files
      && Strip(TextAt(files, NoteFile(course, mode.content, mode.topic))) != ""
      && TopicDeckFile(course, mode.content, mode.topic) !in files
  {
    if apiKey != "" && mode.ContentMode? {
      assert DeckFile(course, mode.content) in files[DeckFile(course, mode.content) := Plain(AggregateOf(files, course, mode.content))];
    }
  }

  /** A topic visit whose note is missing stops and writes nothing. */
  lemma MissingNoteStops(files: Files, course: string, content: string, topic: string, apiKey: string,
                         index: nat, gen: string -> Reply<string>)
    requires WellFormed(files) && apiKey != ""
    requires NoteFile(course, content, topic) !in files
    ensures ReviseVisit(files, course, TopicMode(content, topic), apiKey, index, gen) == Visit(NoteMissing, files, false)
  {
  }

  /** A newly generated topic deck is stored stripped, and the cards shown
      are that stored text split at its headings. */
  lemma GeneratedDeckIsStoredStripped(files: Files, course: string, content: string, topic: string, apiKey: string,
                                      index: nat, gen: string -> Reply<string>, reply: string)
    requires WellFormed(files) && apiKey != ""
    requires NoteFile(course, content, topic) in files && TopicDeckFile(course, content, topic) !in files
    requires Strip(TextAt(files, NoteFile(course, content, topic))) != ""
    requires gen(TextAt(files, NoteFile(course, content, topic))) == Generated(reply)
    ensures var v := ReviseVisit(files, course, TopicMode(content, topic), apiKey, index, gen);
      && v.called
      && v.files == files[TopicDeckFile(course, content, topic) := Plain(Strip(reply))]
      && (v.outcome.Showing? || v.outcome.IndexOutOfRange? ==> Join("\n", v.outcome.cards) == Strip(reply))
      && (v.outcome.NoCards? <==> Strip(reply) == "")
  {
  }

  /** Content revision overwrites `<content>.md` with the combined topic
      decks on every visit, even when they are blank. */
  lemma ContentVisitRewritesDeck(files: Files, course: string, content: string, apiKey: string, index: nat,
                                 gen: string -> Reply<string>)
    requires WellFormed(files) && apiKey != ""
    ensures ReviseVisit(files, course, ContentMode(content), apiKey, index, gen).files
         == files[DeckFile(course, content) := Plain(AggregateOf(files, course, content))]
  {
    var combined := AggregateOf(files, course, content);
    var written := files[DeckFile(course, content) := Plain(combined)];
    assert DeckFile(course, content) in written;
    FromNotesKeepsStoredDeck(written, combined, DeckFile(course, content), index, gen);
    assert ReviseVisit(files, course, ContentMode(content), apiKey, index, gen)
        == FromNotes(written, combined, DeckFile(course, content), index, gen);
  }

  /** With the deck already stored, a visit leaves the store as it is. */
  lemma FromNotesKeepsStoredDeck(files: Files, notes: string, deck: FileKey, index: nat, gen: string -> Reply<string>)
    requires WellFormed(files) && deck.folder.Revision? && deck.folder.area == Flashcards
    requires deck in files
    ensures FromNotes(files, notes, deck, index, gen).files == files
    ensures !FromNotes(files, notes, deck, index, gen).called
  {
  }

  /** With no topic deck at all, content revision writes an empty
      `<content>.md` and stops on blank notes. */
  lemma ContentVisitWithoutTopicDecks(files: Files, course: string, content: string, apiKey: string, index: nat,
                                      gen: string -> Reply<string>)
    requires WellFormed(files) && apiKey != ""
    requires TopicDeckNames(files, course, content) == {}
    ensures var v := ReviseVisit(files, course, ContentMode(content), apiKey, index, gen);
      v.outcome == BlankNotes && v.files == files[DeckFile(course, content) := Plain("")]
  {
    var names := Ascending(TopicDeckNames(files, course, content));
    assert names == [] by {
      if names != [] {
        HeadInElems(names);
      }
    }
    assert AggregateOf(files, course, content) == "";
  }

  /** The visit got as far as splitting a deck. */
  predicate ReachedDeck(out: ReviseOutcome) {
    out.NoCards? || out.IndexOutOfRange? || out.Showing?
  }

  /** Every visit leaves a well-formed store. */
  lemma VisitKeepsWellFormed(files: Files, course: string, mode: Mode, apiKey: string, index: nat,
                             gen: string -> Reply<string>)
    requires WellFormed(files)
    ensures WellFormed(ReviseVisit(files, course, mode, apiKey, index, gen).files)
  {
  }

  /** A topic deck is generated once: visiting again with the store the
      first visit left shows the same outcome without a generator call. */
  lemma TopicRevisitMakesNoCall(files: Files, course: string, content: string, topic: string, apiKey: string,
                                index: nat, gen: string -> Reply<string>)
    requires WellFormed(files)
    requires ReachedDeck(ReviseVisit(files, course, TopicMode(content, topic), apiKey, index, gen).outcome)
    ensures WellFormed(ReviseVisit(files, course, TopicMode(content, topic), apiKey, index, gen).files)
    ensures var first := ReviseVisit(files, course, TopicMode(content, topic), apiKey, index, gen);
      ReviseVisit(first.files, course, TopicMode(content, topic), apiKey, index, gen)
        == Visit(first.outcome, first.files, false)
  {
    VisitKeepsWellFormed(files, course, TopicMode(content, topic), apiKey, index, gen);
    var note := NoteFile(course, content, topic);
    var deck := TopicDeckFile(course, content, topic);
    var notes := TextAt(files, note);
    if deck !in files {
      var text := Strip(gen(notes).value);
      var written := files[deck := Plain(text)];
      assert ReviseVisit(files, course, TopicMode(content, topic), apiKey, index, gen)
          == Visit(ShowCards(text, index), written, true);
      assert note in written && written[note] == files[note];
      assert Strip(text) == text;
      assert ReviseVisit(written, course, TopicMode(content, topic), apiKey, index, gen)
          == Visit(ShowCards(text, index), written, false);
    }
  }

  /** An existing topic deck does not follow edits of its note: any two
      non-blank notes give the same visit. */
  lemma DeckIgnoresNoteEdits(files: Files, course: string, content: string, topic: string, edited: string,
                             apiKey: string, index: nat, gen: string -> Reply<string>)
    requires WellFormed(files)
    requires TopicDeckFile(course, content, topic) in files && NoteFile(course, content, topic) in files
    requires Strip(TextAt(files, NoteFile(course, content, topic))) != "" && Strip(edited) != ""
    ensures var after := files[NoteFile(course, content, topic) := Plain(edited)];
      WellFormed(after) &&
      ReviseVisit(after, course, TopicMode(content, topic), apiKey, index, gen).outcome
        == ReviseVisit(files, course, TopicMode(content, topic), apiKey, index, gen).outcome
  {
    var after := files[NoteFile(course, content, topic) := Plain(edited)];
    assert TopicDeckFile(course, content, topic) in after;
    assert after[TopicDeckFile(course, content, topic)] == files[TopicDeckFile(course, content, topic)];
  }
}
