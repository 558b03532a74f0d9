/**
 * The mime type guesser chain (src/Ignite/Http/File/MimeType/MimeTypeGuesser.php):
 * registered guessers are asked in reverse order of registration and the
 * first answer that is not null wins.
 *
 * The guessers themselves (the `file` binary, mime_content_type, finfo,
 * custom ones) are abstract: what each answers for a path is the parameter
 * `answer`. The file-system tests are parameters too.
 */
module MimeTypes {
  import opened Wrappers

  datatype Guesser = FileBinary | ContentType | FileInfo | Custom(id: nat)

  /** The guesser's answer for the path at hand: a mime type, or None for null. */
  type Answers = Guesser -> Option<string>

  datatype GuessError =
    | FileNotFound(path: string)
    | AccessDenied(path: string)
      /** The LogicException when no guesser is registered. */
    | NoGuessers
      /**
       * Every guesser answered null: guess falls off its end although it
       * declares a string result, which PHP reports as a TypeError.
       */
    | NoStringReturned

  /** Position of the first guesser with an answer. */
  function FirstAnswer(gs: seq<Guesser>, answer: Answers): (r: Option<nat>)
    ensures r.Some? ==> r.value < |gs| && answer(gs[r.value]).Some?
    ensures r.Some? ==> forall j :: 0 <= j < r.value ==> answer(gs[j]).None?
    ensures r.None? ==> forall j :: 0 <= j < |gs| ==> answer(gs[j]).None?
  {
    if |gs| == 0 then None
    else if answer(gs[0]).Some? then Some(0)
    else match FirstAnswer(gs[1..], answer)
      case None => None
      case Some(i) => Some(i + 1)
  }

  /** What guess returns, as written. */
  function GuessOutcome(gs: seq<Guesser>, path: string, isFile: bool, isReadable: bool, answer: Answers): Result<string, GuessError> {
    if !isFile then Err(FileNotFound(path))
    else if !isReadable then Err(AccessDenied(path))
    else if gs == [] then Err(NoGuessers)
    else match FirstAnswer(gs, answer)
      case Some(i) => Ok(answer(gs[i]).value)
      case None => Err(NoStringReturned)
  }

  /** What guess's documentation promises: null when no guesser answers. */
  function IntendedOutcome(gs: seq<Guesser>, path: string, isFile: bool, isReadable: bool, answer: Answers): Result<Option<string>, GuessError> {
    if !isFile then Err(FileNotFound(path))
    else if !isReadable then Err(AccessDenied(path))
    else if gs == [] then Err(NoGuessers)
    else match FirstAnswer(gs, answer)
      case Some(i) => Ok(answer(gs[i]))
      case None => Ok(None)
  }

  class MimeTypeGuesser {
    /** The guessers in the order they are asked: the last registered first. */
    var guessers: seq<Guesser>

    /** The natively provided guessers the platform supports, registered in the code's order. */
    constructor(fileBinarySupported: bool, contentTypeSupported: bool, fileInfoSupported: bool)
      ensures guessers ==
        (if fileInfoSupported then [FileInfo] else [])
        + (if contentTypeSupported then [ContentType] else [])
        + (if fileBinarySupported then [FileBinary] else [])
    {
      guessers := [];
      new;
      if fileBinarySupported {
        Register(FileBinary);
      }
      if contentTypeSupported {
        Register(ContentType);
      }
      if fileInfoSupported {
        Register(FileInfo);
      }
    }

    /** register: array_unshift, so the new guesser is asked first. */
    method Register(g: Guesser)
      modifies this
      ensures guessers == [g] + old(guessers)
    {
      guessers := [g] + guessers;
    }

    /**
     * guess: the file checks first, then each guesser in turn until one
     * answers; `asked` counts the guessers that were called.
     */
    method Guess(path: string, isFile: bool, isReadable: bool, answer: Answers) returns (r: Result<string, GuessError>, ghost asked: nat)
      ensures r == GuessOutcome(guessers, path, isFile, isReadable, answer)
      ensures r.Ok? ==> asked == FirstAnswer(guessers, answer).value + 1
      ensures r.Err? ==> asked == if r.error == NoStringReturned then |guessers| else 0
    {
      asked := 0;
      if !isFile {
        return Err(FileNotFound(path)), 0;
      }
      if !isReadable {
        return Err(AccessDenied(path)), 0;
      }
      if guessers == [] {
        return Err(NoGuessers), 0;
      }
      for i := 0 to |guessers|
        invariant asked == i
        invariant forall j :: 0 <= j < i ==> answer(guessers[j]).None?
      {
        var mimeType := answer(guessers[i]);
        asked := asked + 1;
        if mimeType != None {
          FirstAnswerAt(guessers, answer, i);
          return Ok(mimeType.value), asked;
        }
      }
      return Err(NoStringReturned), asked;
    }
  }

  lemma FirstAnswerAt(gs: seq<Guesser>, answer: Answers, i: nat)
    requires i < |gs| && answer(gs[i]).Some?
    requires forall j :: 0 <= j < i ==> answer(gs[j]).None?
    ensures FirstAnswer(gs, answer) == Some(i)
  {
    assert FirstAnswer(gs, answer).Some?;
  }

  /** The guesser registered last is asked first: when it answers, its answer is the result. */
  lemma LastRegisteredWins(g: Guesser, gs: seq<Guesser>, path: string, answer: Answers)
    requires answer(g).Some?
    ensures GuessOutcome([g] + gs, path, true, true, answer) == Ok(answer(g).value)
  {
  }

  /** When it does not answer, the guessers registered before it decide. */
  lemma SilentGuesserSkipped(g: Guesser, gs: seq<Guesser>, path: string, answer: Answers)
    requires answer(g).None? && gs != []
    ensures GuessOutcome([g] + gs, path, true, true, answer) == GuessOutcome(gs, path, true, true, answer)
  {
    assert ([g] + gs)[1..] == gs;
  }

  /** The file checks come before any guesser: their errors do not depend on the guessers. */
  lemma FileChecksFirst(gs: seq<Guesser>, hs: seq<Guesser>, path: string, isFile: bool, isReadable: bool, answer: Answers, other: Answers)
    requires !isFile || !isReadable
    ensures GuessOutcome(gs, path, isFile, isReadable, answer) == GuessOutcome(hs, path, isFile, isReadable, other)
    ensures !isFile ==> GuessOutcome(gs, path, isFile, isReadable, answer) == Err(FileNotFound(path))
  {
  }

  /** Where some guesser answers, the code and its documentation agree. */
  lemma GuessMeetsIntent(gs: seq<Guesser>, path: string, isFile: bool, isReadable: bool, answer: Answers)
    ensures var r := GuessOutcome(gs, path, isFile, isReadable, answer);
      r.Ok? ==> IntendedOutcome(gs, path, isFile, isReadable, answer) == Ok(Some(r.value))
  {
  }

  /** As written, a chain where no guesser answers ends in a TypeError where null was promised. */
  lemma SilentChainAsWritten(gs: seq<Guesser>, path: string, answer: Answers)
    requires gs != [] && forall i :: 0 <= i < |gs| ==> answer(gs[i]).None?
    ensures GuessOutcome(gs, path, true, true, answer) == Err(NoStringReturned)
    ensures IntendedOutcome(gs, path, true, true, answer) == Ok(None)
  {
  }
}
