/** The quiz page: find or build the content's flashcard deck, load the quiz
    from the cache or regenerate it when the deck's fingerprint changed, and
    set up the quiz run in the session. */
module QuizPage {
  import opened Wrappers
  import opened Text
  import opened Store
  import opened Decks
  import opened SessionState

  /** `hashlib.md5(text.encode()).hexdigest()`: 32 lower-case hex digits. */
  type HexDigest = s: string | |s| == 32 && forall i :: 0 <= i < |s| ==> IsHexDigit(s[i])
    witness "00000000000000000000000000000000"

  predicate IsHexDigit(c: char) {
    '0' <= c <= '9' || 'a' <= c <= 'f'
  }

  /** A digest has no surrounding whitespace, so stripping the stored
      fingerprint gives back exactly the digest that was written. */
  lemma DigestIsTrimmed(d: HexDigest)
    ensures Strip(d) == d
  {
    assert IsHexDigit(d[0]) && IsHexDigit(d[31]);
    assert Trimmed(d);
  }

  /** The cache-miss test: no quiz file, no fingerprint file, or a stored
      fingerprint that, stripped, is not the digest of the current deck. */
  predicate QuizStale(files: Files, course: string, content: string, digest: string)
    requires WellFormed(files)
  {
    QuizFileKinds(course, content);
    || QuizFile(course, content) !in files
    || HashFile(course, content) !in files
    || Strip(TextAt(files, HashFile(course, content))) != digest
  }

  /** The write-back after a regeneration: the quiz file, then the
      fingerprint file. */
  function WriteBack(files: Files, course: string, content: string, quiz: seq<Question>, digest: string): (r: Files)
    requires WellFormed(files)
    ensures WellFormed(r)
  {
    QuizFileKinds(course, content);
    files[QuizFile(course, content) := QuizData(quiz)][HashFile(course, content) := Plain(digest)]
  }

  /** The questions of the cached quiz file. */
  function CachedQuiz(files: Files, course: string, content: string): seq<Question>
    requires WellFormed(files) && QuizFile(course, content) in files
  {
    QuizFileKinds(course, content);
    files[QuizFile(course, content)].questions
  }

  /** Writing the content's deck touches neither the cache test nor the
      cached quiz: the deck lives in the flashcards folder. */
  lemma DeckWriteKeepsCache(files: Files, course: string, content: string, deck: string, digest: string)
    requires WellFormed(files)
    ensures WellFormed(files[DeckFile(course, content) := Plain(deck)])
    ensures QuizStale(files[DeckFile(course, content) := Plain(deck)], course, content, digest)
         == QuizStale(files, course, content, digest)
    ensures QuizFile(course, content) in files ==>
      CachedQuiz(files[DeckFile(course, content) := Plain(deck)], course, content) == CachedQuiz(files, course, content)
  {
  }

  /** Right after a regeneration the cache is fresh for the same deck. */
  lemma WriteBackIsFresh(files: Files, course: string, content: string, quiz: seq<Question>, digest: HexDigest)
    requires WellFormed(files)
    ensures !QuizStale(WriteBack(files, course, content, quiz, digest), course, content, digest)
  {
    DigestIsTrimmed(digest);
    QuizFileKinds(course, content);
    assert QuizFile(course, content) != HashFile(course, content);
  }

  /** A fresh cache goes stale for any other digest: a changed deck whose
      digest differs forces a regeneration. */
  lemma OtherDigestIsStale(files: Files, course: string, content: string, d1: string, d2: string)
    requires WellFormed(files)
    requires !QuizStale(files, course, content, d1) && d1 != d2
    ensures QuizStale(files, course, content, d2)
  {
  }

  /** Lines 48-72: use `<content>.md` as it is when present; otherwise build
      it from the topic decks and write it; with neither, nothing. */
  method ResolveDeck(disk: Disk, course: string, content: string) returns (deck: Option<string>)
    requires disk.Valid()
    modifies disk
    ensures disk.Valid()
    ensures DeckFile(course, content) in old(disk.files) ==>
      deck == Some(TextAt(old(disk.files), DeckFile(course, content))) && disk.files == old(disk.files)
    ensures DeckFile(course, content) !in old(disk.files) && TopicDeckNames(old(disk.files), course, content) == {} ==>
      deck == None && disk.files == old(disk.files)
    ensures DeckFile(course, content) !in old(disk.files) && TopicDeckNames(old(disk.files), course, content) != {} ==>
      && deck == Some(AggregateOf(old(disk.files), course, content))
      && disk.files == old(disk.files)[DeckFile(course, content) := Plain(deck.value)]
  {
    var key := DeckFile(course, content);
    var present := disk.Exists(key);
    if !present {
      var combined, found := CombineTopicDecks(disk, course, content);
      if !found {
        return None;
      }
      disk.Write(key, Plain(combined));
    }
    var text := disk.ReadText(key);
    deck := Some(text);
  }

  /** Lines 75-77 and 125-138, the generation cache: the generator is
      called exactly when the cache is stale; a successful reply is written
      to the quiz file and then the digest to the fingerprint file; a failed
      call changes nothing; a fresh cache is loaded without a call. */
  method RefreshQuiz(disk: Disk, course: string, content: string, deck: string,
                     md5: string -> HexDigest, gen: string -> Reply<seq<Question>>)
    returns (called: bool, quiz: Option<seq<Question>>)
    requires disk.Valid()
    modifies disk
    ensures disk.Valid()
    ensures called == QuizStale(old(disk.files), course, content, md5(deck))
    ensures !called ==>
      && QuizFile(course, content) in old(disk.files)
      && quiz == Some(CachedQuiz(old(disk.files), course, content))
      && disk.files == old(disk.files)
    ensures called && gen(deck).Failed? ==> quiz == None && disk.files == old(disk.files)
    ensures called && gen(deck).Generated? ==>
      && quiz == Some(gen(deck).value)
      && disk.files == WriteBack(old(disk.files), course, content, gen(deck).value, md5(deck))
  {
    QuizFileKinds(course, content);
    var digest := md5(deck);
    var quizKey, hashKey := QuizFile(course, content), HashFile(course, content);
    var hasQuiz := disk.Exists(quizKey);
    var hasHash := disk.Exists(hashKey);
    var stale := !hasQuiz || !hasHash;
    if !stale {
      var stored := disk.ReadText(hashKey);
      stale := Strip(stored) != digest;
    }
    called := stale;
    if stale {
      var reply := gen(deck);
      if reply.Failed? {
        quiz := None;
        return;
      }
      disk.Write(quizKey, QuizData(reply.value));
      disk.Write(hashKey, Plain(digest));
      quiz := Some(reply.value);
    } else {
      var doc := disk.ReadDoc(quizKey);
      quiz := Some(doc.questions);
    }
  }

  /** How a run of the quiz page ends. `Loaded` carries the deck the quiz
      was made from, the quiz of this run and the question on screen;
      `current == None` is the `IndexError` the page raises on an empty
      quiz. */
  datatype QuizOutcome =
    | NoApiKey
    | NoFlashcards
    | GeneratorError(deck: string)
    | Loaded(deck: string, quiz: seq<Question>, current: Option<Question>)

  /** One run of the quiz page for `content` of `course`, with `env` the
      environment's API key, `md5` the digest, `gen` the quiz generator and
      `shuffle` the permutation `random.sample(q, len(q))` picks. */
  method RunQuizPage(disk: Disk, session: Session, course: string, content: string, env: Option<string>,
                     md5: string -> HexDigest, gen: string -> Reply<seq<Question>>,
                     shuffle: seq<Question> -> seq<Question>)
    returns (out: QuizOutcome, called: bool)
    requires disk.Valid() && session.QuizValid()
    requires forall qs :: multiset(shuffle(qs)) == multiset(qs)
    modifies disk, session
    ensures disk.Valid() && session.QuizValid()
    ensures session.apiKey == old(session.apiKey) && session.flashcardIndex == old(session.flashcardIndex)
    ensures out.NoApiKey? <==> ApiKeyFor(old(session.apiKey), env) == ""
    ensures out.NoApiKey? || out.NoFlashcards? ==> !called && disk.files == old(disk.files) && unchanged(session)
    ensures !out.NoApiKey? ==>
      (out.NoFlashcards? <==>
        DeckFile(course, content) !in old(disk.files) && TopicDeckNames(old(disk.files), course, content) == {})
    ensures out.GeneratorError? || out.Loaded? ==>
      && (DeckFile(course, content) in old(disk.files) ==> out.deck == TextAt(old(disk.files), DeckFile(course, content)))
      && (DeckFile(course, content) !in old(disk.files) ==> out.deck == AggregateOf(old(disk.files), course, content))
      && called == QuizStale(old(disk.files), course, content, md5(out.deck))
    ensures out.GeneratorError? ==>
      && called && gen(out.deck).Failed? && unchanged(session)
      && disk.files == old(disk.files)[DeckFile(course, content) := Plain(out.deck)]
    ensures out.Loaded? ==>
      var resolved := old(disk.files)[DeckFile(course, content) := Plain(out.deck)];
      && WellFormed(resolved)
      && (called ==> gen(out.deck).Generated?)
      && disk.files == (if called then WriteBack(resolved, course, content, out.quiz, md5(out.deck)) else resolved)
      && out.quiz == (if called then gen(out.deck).value else CachedQuiz(old(disk.files), course, content))
    ensures out.Loaded? ==>
      && session.quizStarted
      && (old(session.quizStarted) ==> unchanged(session))
      && (!old(session.quizStarted) ==>
           && session.quizQuestions == shuffle(out.quiz)
           && multiset(session.quizQuestions) == multiset(out.quiz)
           && session.questionIndex == 0 && session.score == 0
           && !session.showAnswer && session.selectedOption == None)
      && out.current == (if session.quizQuestions == [] then None else Some(session.quizQuestions[session.questionIndex]))
  {
    var key := ApiKeyFor(session.apiKey, env);
    if key == "" {
      return NoApiKey, false;
    }
    ghost var before := disk.files;
    var deck := ResolveDeck(disk, course, content);
    if deck.None? {
      return NoFlashcards, false;
    }
    var text := deck.value;
    DeckWriteKeepsCache(before, course, content, text, md5(text));
    assert disk.files == before[DeckFile(course, content) := Plain(text)];
    var quiz;
    called, quiz := RefreshQuiz(disk, course, content, text, md5, gen);
    if quiz.None? {
      return GeneratorError(text), called;
    }
    session.StartQuizIfAbsent(shuffle(quiz.value));
    var current := if session.quizQuestions == [] then None else Some(session.quizQuestions[session.questionIndex]);
    out := Loaded(text, quiz.value, current);
  }

  /** The cache at work: a second visit right after a successful one makes
      no generator call and shows the same deck and quiz. */
  method SecondVisitMakesNoCall(initial: Files, course: string, content: string, env: Option<string>,
                                md5: string -> HexDigest, gen: string -> Reply<seq<Question>>,
                                shuffle: seq<Question> -> seq<Question>)
    returns (first: QuizOutcome, second: QuizOutcome, calledAgain: bool)
    requires WellFormed(initial)
    requires forall qs :: multiset(shuffle(qs)) == multiset(qs)
    ensures first.Loaded? ==> second.Loaded? && !calledAgain && second.deck == first.deck && second.quiz == first.quiz
  {
    var disk := new Disk(initial);
    var session := new Session();
    var calledFirst;
    first, calledFirst := RunQuizPage(disk, session, course, content, env, md5, gen, shuffle);
    ghost var afterFirst := disk.files;
    second, calledAgain := RunQuizPage(disk, session, course, content, env, md5, gen, shuffle);
    if first.Loaded? {
      var resolved := initial[DeckFile(course, content) := Plain(first.deck)];
      DeckWriteKeepsCache(initial, course, content, first.deck, md5(first.deck));
      if calledFirst {
        WriteBackIsFresh(resolved, course, content, first.quiz, md5(first.deck));
      }
      assert DeckFile(course, content) in afterFirst;
      assert TextAt(afterFirst, DeckFile(course, content)) == first.deck;
    }
  }
}
