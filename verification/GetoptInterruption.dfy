/**
 Which argument vectors make the scan of lib/util/getopt_long.c stop at a '-' inside a
 word, with the operands before it not moved: a matter of the words alone.
 */
module GetoptInterruption {
  import opened GetoptSpec

  /** There is no table of long options, and '-' is no option letter. */
  predicate PlainDash(cfg: Config) {
    cfg.longOptions.None? && Find(cfg.options, '-') == |cfg.options|
  }

  /** The option letter c takes an argument, optional or required. */
  predicate Takes(cfg: Config, c: char) {
    var k := Find(cfg.options, c);
    c != ':' && k + 1 < |cfg.options| && cfg.options[k + 1] == ':'
  }

  predicate NeedsArgument(cfg: Config, c: char) {
    var k := Find(cfg.options, c);
    Takes(cfg, c) && !(k + 2 < |cfg.options| && cfg.options[k + 2] == ':')
  }

  /** The first letter that takes an argument, or the number of letters. */
  function FirstTaking(cfg: Config, letters: string): (k: nat)
    ensures k <= |letters| && (k < |letters| ==> Takes(cfg, letters[k]))
    ensures forall j | 0 <= j < k :: !Takes(cfg, letters[j])
  {
    if letters == "" || Takes(cfg, letters[0]) then 0 else 1 + FirstTaking(cfg, letters[1..])
  }

  /** A cluster of letters, none of which takes an argument, that ends in a dash. */
  predicate EndsInDash(cfg: Config, word: string) {
    && |word| >= 2 && word[0] == '-' && word != "--" && word[|word| - 1] == '-'
    && FirstTaking(cfg, word[1..]) == |word| - 1
  }

  /** The word that follows an option word whose letters from some point on are given. */
  function AfterLetters(cfg: Config, argv: seq<string>, i: nat, letters: string): (j: nat)
    requires i < |argv|
    ensures i < j <= |argv|
  {
    var k := FirstTaking(cfg, letters);
    if k + 1 == |letters| && NeedsArgument(cfg, letters[k]) && i + 1 < |argv| then i + 2 else i + 1
  }

  function After(cfg: Config, argv: seq<string>, i: nat): (j: nat)
    requires i < |argv|
    ensures i < j <= |argv|
  {
    if IsOperand(cfg, argv[i]) then i + 1 else AfterLetters(cfg, argv, i, argv[i][1..])
  }

  /** The scan goes no further than this word. */
  predicate Ends(cfg: Config, word: string) {
    if IsOperand(cfg, word) then !cfg.allArgs && !cfg.permute else word == "--" || EndsInDash(cfg, word)
  }

  /** A scan that has got to word `from` gets to word i as a word of its own. */
  predicate Reached(cfg: Config, argv: seq<string>, from: nat, i: nat)
    decreases |argv| - from
  {
    from == i || (from < |argv| && !Ends(cfg, argv[from]) && Reached(cfg, argv, After(cfg, argv, from), i))
  }

  /** A word that ends in a dash is reached. */
  predicate DashReached(cfg: Config, argv: seq<string>, from: nat) {
    exists i: nat :: i < |argv| && Reached(cfg, argv, from, i) && EndsInDash(cfg, argv[i])
  }

  // --- without a plain dash, the scan is never interrupted -----------------------------------

  lemma {:induction false} NeedsPlainDash(cfg: Config, argv: seq<string>, optind: nat, place: string)
    requires cfg.Valid() && optind <= |argv| && Inside(cfg, argv, optind, place)
    requires Remaining(cfg, argv, optind, place).interrupted
    ensures PlainDash(cfg)
    decreases |argv| - optind, if place == "" then 1 else 0, |place|
  {
    hide OptionStep, IsOperand;
    if place != "" {
      var r := OptionStep(cfg, argv, optind, place);
      StepProgress(cfg, argv, optind, place);
      if r.ret != -1 {
        NeedsPlainDash(cfg, argv, r.optind, r.place);
      }
    } else if IsOperand(cfg, argv[optind]) {
      NeedsPlainDash(cfg, argv, optind + 1, "");
    } else {
      OpenInside(cfg, argv, optind);
      NeedsPlainDash(cfg, argv, optind, OptionText(argv[optind]));
    }
  }

  // --- one word --------------------------------------------------------------------------------

  /** One letter: it ends the word, ends the scan, or leaves the rest of the word. */
  lemma LetterStep(cfg: Config, argv: seq<string>, optind: nat, place: string)
    requires PlainDash(cfg) && place != "" && optind < |argv|
    ensures var r := OptionStep(cfg, argv, optind, place);
            if Takes(cfg, place[0]) then
              r.ret != -1 && r.place == "" && r.optind == AfterLetters(cfg, argv, optind, place)
            else if place == "-" then r.ret == -1
            else r.ret != -1 && r.place == place[1..] && r.optind == if place[1..] == "" then optind + 1 else optind
  {
    hide Find;
    var k := Find(cfg.options, place[0]);
    if k < |cfg.options| {
      var after := cfg.options[k + 1..];
      assert Takes(cfg, place[0]) <==> place[0] != ':' && after != "" && after[0] == ':';
      assert k + 2 < |cfg.options| ==> after[1] == cfg.options[k + 2];
    }
  }

  lemma LettersOn(cfg: Config, letters: string)
    requires letters != "" && !Takes(cfg, letters[0])
    ensures FirstTaking(cfg, letters) == 1 + FirstTaking(cfg, letters[1..])
  {
  }

  /** What becomes of the scan at the letters of a word. */
  lemma {:induction false} LettersOutcome(cfg: Config, argv: seq<string>, optind: nat, place: string)
    requires cfg.Valid() && PlainDash(cfg) && optind < |argv| && place != "" && Inside(cfg, argv, optind, place)
    ensures var next := AfterLetters(cfg, argv, optind, place);
            Remaining(cfg, argv, optind, place).interrupted <==>
              || (FirstTaking(cfg, place) == |place| && place[|place| - 1] == '-')
              || Remaining(cfg, argv, next, "").interrupted
    decreases |place|
  {
    hide OptionStep, IsOperand, Takes;
    var r := OptionStep(cfg, argv, optind, place);
    StepProgress(cfg, argv, optind, place);
    LetterStep(cfg, argv, optind, place);
    if !Takes(cfg, place[0]) {
      LettersOn(cfg, place);
      if place[1..] != "" {
        LettersOutcome(cfg, argv, optind, place[1..]);
      }
    }
  }

  // --- all words -----------------------------------------------------------------------------------

  /** A word that neither ends in a dash nor ends the scan passes the matter on to the next word. */
  lemma PassedOn(cfg: Config, argv: seq<string>, from: nat)
    requires from < |argv| && !EndsInDash(cfg, argv[from])
    ensures !Ends(cfg, argv[from]) ==> (DashReached(cfg, argv, from) <==> DashReached(cfg, argv, After(cfg, argv, from)))
    ensures Ends(cfg, argv[from]) ==> !DashReached(cfg, argv, from)
  {
    hide EndsInDash, Ends, After;
    if !Ends(cfg, argv[from]) && DashReached(cfg, argv, After(cfg, argv, from)) {
      var i: nat :| i < |argv| && Reached(cfg, argv, After(cfg, argv, from), i) && EndsInDash(cfg, argv[i]);
      assert Reached(cfg, argv, from, i);
    }
  }

  /** The scan is interrupted exactly when a word that ends in a dash is reached. */
  lemma {:induction false} WordsDecide(cfg: Config, argv: seq<string>, from: nat)
    requires cfg.Valid() && PlainDash(cfg) && from <= |argv|
    ensures Remaining(cfg, argv, from, "").interrupted <==> DashReached(cfg, argv, from)
    decreases |argv| - from
  {
    hide OptionStep, Find;
    if from < |argv| {
      var word := argv[from];
      if IsOperand(cfg, word) {
        PassedOn(cfg, argv, from);
        WordsDecide(cfg, argv, from + 1);
      } else if word == "--" {
        PassedOn(cfg, argv, from);
      } else {
        OptionWord(cfg, argv, from);
        if EndsInDash(cfg, word) {
          assert Reached(cfg, argv, from, from);
        } else {
          PassedOn(cfg, argv, from);
          WordsDecide(cfg, argv, After(cfg, argv, from));
        }
      }
    }
  }

  lemma OptionWord(cfg: Config, argv: seq<string>, i: nat)
    requires cfg.Valid() && PlainDash(cfg) && i < |argv| && !IsOperand(cfg, argv[i]) && argv[i] != "--"
    ensures Remaining(cfg, argv, i, "").interrupted <==>
            EndsInDash(cfg, argv[i]) || Remaining(cfg, argv, After(cfg, argv, i), "").interrupted
  {
    hide OptionStep, Takes, NeedsArgument;
    var word := argv[i];
    OpenInside(cfg, argv, i);
    assert |word| >= 2 && OptionText(word) == word[1..];
    LettersOutcome(cfg, argv, i, word[1..]);
  }

  /** For every argument vector, with or without long options. */
  lemma InterruptedExactly(cfg: Config, argv: seq<string>)
    requires cfg.Valid() && |argv| >= 1
    ensures Scan(cfg, argv).interrupted <==> PlainDash(cfg) && DashReached(cfg, argv, 1)
  {
    hide PlainDash, DashReached, Remaining;
    if PlainDash(cfg) {
      WordsDecide(cfg, argv, 1);
    } else if Scan(cfg, argv).interrupted {
      NeedsPlainDash(cfg, argv, 1, "");
    }
  }
}
