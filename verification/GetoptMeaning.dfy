/**
 What the calls of lib/util/getopt_long.c report, said on the words of the command line:
 which option a word names, where its argument is, and where the scan goes on.
 */
module GetoptMeaning {
  import opened GetoptSpec

  // What a call does is a Step: what it returns and leaves in optarg, where the scan goes on,
  // and what it stores in optopt, in the index and in the flag cell of a long option.

  /** An option was recognised. */
  function Gives(ret: int, arg: Option<string>, i: nat, place: string): Step {
    Step(ret, i, place, arg, None, None, None)
  }

  /** Nothing was recognised. */
  function Unrecognised(i: nat, place: string, optopt: int): Step {
    Step('?' as int, i, place, None, Some(optopt), None, None)
  }

  /** An argument is missing or superfluous. */
  function Faulty(cfg: Config, i: nat, optopt: int): Step {
    var ret := if cfg.options != "" && cfg.options[0] == ':' then ':' as int else '?' as int;
    Step(ret, i, "", None, Some(optopt), None, None)
  }

  // --- letters ---------------------------------------------------------------------------

  /** The letter is first listed at k. */
  predicate ListedAt(options: string, c: char, k: int) {
    0 <= k < |options| && options[k] == c && c !in options[..k]
  }

  predicate Listed(options: string, c: char) {
    c != ':' && c in options
  }

  /** The character d follows the letter in the option string, n places behind it. */
  ghost predicate Marked(options: string, c: char, n: nat, d: char) {
    exists k :: ListedAt(options, c, k) && k + n < |options| && options[k + n] == d
  }

  ghost predicate TakesArgument(options: string, c: char) {
    Marked(options, c, 1, ':')
  }

  ghost predicate NeedsNone(options: string, c: char) {
    Marked(options, c, 1, ':') && Marked(options, c, 2, ':')
  }

  // --- long options ------------------------------------------------------------------------

  /** The name ends at the first '=' or with the text. */
  predicate NameEnds(text: string, e: nat) {
    e <= |text| && '=' !in text[..e] && (e < |text| ==> text[e] == '=')
  }

  /** Two entries that a caller can tell apart. */
  predicate Differ(a: LongOption, b: LongOption, longOnly: bool) {
    longOnly || a.hasArg != b.hasArg || a.flag != b.flag || a.val != b.val
  }

  /** A name denotes the first entry of that name, or the first one it abbreviates if no other one clashes. */
  ghost predicate Denotes(longs: seq<LongOption>, name: string, exactOnly: bool, longOnly: bool, k: int) {
    && 0 <= k < |longs|
    && if exists j :: 0 <= j < |longs| && longs[j].name == name then
         longs[k].name == name && forall j | 0 <= j < k :: longs[j].name != name
       else
         && !exactOnly && name <= longs[k].name
         && (forall j | 0 <= j < k :: !(name <= longs[j].name))
         && (forall j | k < j < |longs| && name <= longs[j].name :: !Differ(longs[j], longs[k], longOnly))
  }

  /** Entry k was recognised: its value is returned, or stored in its flag. */
  function Accepted(o: LongOption, k: nat, arg: Option<string>, i: nat): Step {
    if o.flag.Some? then Step(0, i, "", arg, None, Some(k), Some((o.flag.value, o.val)))
    else Step(o.val, i, "", arg, None, Some(k), None)
  }

  /** What is found at an entry, with the name ending at e and the next word for a missing argument. */
  predicate EntryMeans(cfg: Config, argv: seq<string>, i: nat, text: string, e: nat, o: LongOption, k: nat, f: Step)
    requires e <= |text|
  {
    var fault := Faulty(cfg, i + 1, if o.flag.Some? then 0 else o.val);
    match o.hasArg
    case NoArgument => f == if e < |text| then fault else Accepted(o, k, None, i + 1)
    case OptionalArgument => f == Accepted(o, k, if e < |text| then Some(text[e + 1..]) else None, i + 1)
    case RequiredArgument =>
      if e < |text| then f == Accepted(o, k, Some(text[e + 1..]), i + 1)
      else if i + 1 < |argv| then f == Accepted(o, k, Some(argv[i + 1]), i + 2)
      else f == fault
  }

  ghost predicate LongMeans(cfg: Config, argv: seq<string>, i: nat, text: string, exactOnly: bool, f: Step)
    requires cfg.longOptions.Some?
  {
    var longs := cfg.longOptions.value;
    exists e: nat :: NameEnds(text, e) &&
      if Known(longs, text[..e], exactOnly, cfg.longOnly) then
        exists k :: Denotes(longs, text[..e], exactOnly, cfg.longOnly, k) && EntryMeans(cfg, argv, i, text, e, longs[k], k, f)
      else f == Unrecognised(i + 1, "", 0)
  }

  ghost predicate Known(longs: seq<LongOption>, name: string, exactOnly: bool, longOnly: bool) {
    exists k :: Denotes(longs, name, exactOnly, longOnly, k)
  }

  // --- one option ----------------------------------------------------------------------------

  /** Where a letter leaves the scan that uses up nothing else. */
  function Onward(i: nat, rest: string): nat {
    if rest == "" then i + 1 else i
  }

  ghost predicate LetterMeans(cfg: Config, argv: seq<string>, i: nat, place: string, f: Step)
    requires place != ""
  {
    var c, rest := place[0], place[1..];
    if !Listed(cfg.options, c) || (c == '-' && rest != "") then f == Unrecognised(Onward(i, rest), rest, c as int)
    else if cfg.longOptions.Some? && c == 'W' && Marked(cfg.options, c, 1, ';') then
      if rest != "" then LongMeans(cfg, argv, i, rest, false, f)
      else if i + 1 < |argv| then LongMeans(cfg, argv, i + 1, argv[i + 1], false, f)
      else f == Faulty(cfg, i + 1, 'W' as int)
    else if !TakesArgument(cfg.options, c) then f == Gives(c as int, None, Onward(i, rest), rest)
    else if rest != "" then f == Gives(c as int, Some(rest), i + 1, "")
    else if NeedsNone(cfg.options, c) then f == Gives(c as int, None, i + 1, "")
    else if i + 1 < |argv| then f == Gives(c as int, Some(argv[i + 1]), i + 2, "")
    else f == Faulty(cfg, i + 1, c as int)
  }

  /** The option at `place` in word i: a long one where its name may start, else a letter. */
  ghost predicate OptionMeans(cfg: Config, argv: seq<string>, i: nat, place: string, f: Step)
    requires place != "" && i < |argv|
  {
    if cfg.longOptions.Some? && |place| < |argv[i]| && place[0] == '-' then
      LongMeans(cfg, argv, i, place[1..], false, f)
    else if cfg.longOptions.Some? && |place| < |argv[i]| && cfg.longOnly then
      var shortToo := Listed(cfg.options, place[0]);
      if !shortToo || NamesLong(cfg, place) then LongMeans(cfg, argv, i, place, shortToo && SingleName(place), f)
      else LetterMeans(cfg, argv, i, place, f)
    else LetterMeans(cfg, argv, i, place, f)
  }

  /** The name is one letter, which then must be the whole name of an entry. */
  predicate SingleName(text: string) {
    |text| >= 1 && text[0] != '=' && (|text| == 1 || text[1] == '=')
  }

  /** The text names an entry, or abbreviates several. */
  ghost predicate NamesLong(cfg: Config, text: string)
    requires cfg.longOptions.Some?
  {
    var longs := cfg.longOptions.value;
    exists e: nat :: NameEnds(text, e) &&
      exists k :: 0 <= k < |longs| && if SingleName(text) then longs[k].name == text[..e] else text[..e] <= longs[k].name
  }

  // --- the steps mean this -----------------------------------------------------------------------

  lemma ListedIs(options: string, c: char)
    ensures Find(options, c) < |options| <==> c in options
    ensures Find(options, c) < |options| ==> ListedAt(options, c, Find(options, c))
  {
    hide Find;
    var k := Find(options, c);
    assert k == |options| ==> options[..k] == options;
  }

  lemma MarkedIs(options: string, c: char, n: nat, d: char)
    requires c in options
    ensures var k := Find(options, c); Marked(options, c, n, d) <==> k + n < |options| && options[k + n] == d
  {
    hide Find;
    ListedIs(options, c);
    forall j | ListedAt(options, c, j) ensures j == Find(options, c) {
      FirstOnly(options, c, j, Find(options, c));
    }
  }

  lemma FirstOnly(s: string, c: char, j: nat, k: nat)
    requires j < |s| && s[j] == c && c !in s[..j] && k < |s| && s[k] == c && c !in s[..k]
    ensures j == k
  {
  }

  lemma NameEndsIs(text: string, e: nat)
    ensures NameEnds(text, e) <==> e == Find(text, '=')
  {
    hide Find;
    var k := Find(text, '=');
    if NameEnds(text, e) {
      if e < |text| && k < |text| {
        FirstOnly(text, '=', e, k);
      }
      assert e == |text| ==> text[..e] == text;
      assert k == |text| ==> text[..k] == text;
    }
  }

  lemma DenotesExact(longs: seq<LongOption>, name: string, exactOnly: bool, longOnly: bool, k: int)
    requires First(longs, name, true) < |longs|
    ensures Denotes(longs, name, exactOnly, longOnly, k) <==> k == First(longs, name, true)
  {
    hide First;
    var x := First(longs, name, true);
    assert longs[x].name == name;
    assert forall j | 0 <= j < x :: longs[j].name != name;
  }

  lemma DenotesPartial(longs: seq<LongOption>, name: string, exactOnly: bool, longOnly: bool, k: int)
    requires First(longs, name, true) == |longs|
    ensures var p := First(longs, name, false);
            Denotes(longs, name, exactOnly, longOnly, k) <==>
              k == p < |longs| && !exactOnly && Clear(longs, name, longOnly, p)
  {
    hide First;
    assert forall j | 0 <= j < |longs| :: !Fits(longs[j], name, true);
    assert forall j | 0 <= j < |longs| :: longs[j].name != name;
    var p := First(longs, name, false);
    assert forall j | 0 <= j < p :: !Fits(longs[j], name, false);
    if p < |longs| {
      assert Fits(longs[p], name, false);
    }
  }

  /** Looking up a name finds the entry it denotes. */
  lemma LookUpDenotes(longs: seq<LongOption>, name: string, shortToo: bool, longOnly: bool)
    ensures var m, exactOnly := LookUp(longs, name, shortToo, longOnly), shortToo && |name| == 1;
            && (m.Found? <==> Known(longs, name, exactOnly, longOnly))
            && (m.Found? ==> Denotes(longs, name, exactOnly, longOnly, m.index))
            && (m.Unknown? <==> Nothing(longs, name, exactOnly))
  {
    hide First, Fits, Clash, Denotes, LookUp, Clear;
    var exactOnly := shortToo && |name| == 1;
    var x, p := First(longs, name, true), First(longs, name, false);
    LookUpCases(longs, name, shortToo, longOnly);
    NothingFits(longs, name);
    forall k ensures Denotes(longs, name, exactOnly, longOnly, k) <==>
        if x < |longs| then k == x else k == p < |longs| && !exactOnly && Clear(longs, name, longOnly, p)
    {
      if x < |longs| {
        DenotesExact(longs, name, exactOnly, longOnly, k);
      } else {
        DenotesPartial(longs, name, exactOnly, longOnly, k);
      }
    }
    assert x < |longs| ==> Denotes(longs, name, exactOnly, longOnly, x);
    assert x == |longs| && p < |longs| && !exactOnly && Clear(longs, name, longOnly, p) ==>
        Denotes(longs, name, exactOnly, longOnly, p);
  }

  predicate Clear(longs: seq<LongOption>, name: string, longOnly: bool, p: nat) {
    p < |longs| && forall j | p < j < |longs| && Fits(longs[j], name, false) :: !Clash(longs[j], longs[p], longOnly)
  }

  lemma LookUpCases(longs: seq<LongOption>, name: string, shortToo: bool, longOnly: bool)
    ensures var x, p := First(longs, name, true), First(longs, name, false);
            LookUp(longs, name, shortToo, longOnly)
              == if x < |longs| then Found(x)
                 else if (shortToo && |name| == 1) || p == |longs| then Unknown
                 else if Clear(longs, name, longOnly, p) then Found(p) else Ambiguous
  {
    hide First, Fits, Clash;
  }

  /** No entry has the name, or none has it as the start of its name. */
  predicate Nothing(longs: seq<LongOption>, name: string, exactOnly: bool) {
    forall k | 0 <= k < |longs| :: if exactOnly then longs[k].name != name else !(name <= longs[k].name)
  }

  lemma NothingFits(longs: seq<LongOption>, name: string)
    ensures Nothing(longs, name, true) <==> First(longs, name, true) == |longs|
    ensures Nothing(longs, name, false) <==> First(longs, name, false) == |longs|
    ensures First(longs, name, true) < |longs| ==> !Nothing(longs, name, false)
  {
    hide First;
    var x, p := First(longs, name, true), First(longs, name, false);
    assert forall j | 0 <= j < x :: !Fits(longs[j], name, true);
    assert forall j | 0 <= j < p :: !Fits(longs[j], name, false);
    assert x < |longs| ==> Fits(longs[x], name, true);
    assert p < |longs| ==> Fits(longs[p], name, false);
  }

  lemma EntryIs(cfg: Config, argv: seq<string>, i: nat, text: string, k: nat, e: nat)
    requires cfg.longOptions.Some? && k < |cfg.longOptions.value| && e <= |text|
    ensures EntryMeans(cfg, argv, i, text, e, cfg.longOptions.value[k], k, FoundStep(cfg, argv, i, text, k, e))
  {
  }

  /** A step on a long option finds what the text denotes. */
  lemma LongIs(cfg: Config, argv: seq<string>, i: nat, text: string, shortToo: bool)
    requires cfg.longOptions.Some?
    ensures var r := LongStep(cfg, argv, i, text, shortToo);
            var e := Find(text, '=');
            var exactOnly := shortToo && e == 1;
            if shortToo && Nothing(cfg.longOptions.value, text[..e], exactOnly) then r == Report(-1, i, text)
            else LongMeans(cfg, argv, i, text, exactOnly, r)
  {
    hide Find, LookUp, FoundStep, Denotes, EntryMeans, Nothing;
    var longs, e := cfg.longOptions.value, Find(text, '=');
    NameEndsIs(text, e);
    LookUpDenotes(longs, text[..e], shortToo, cfg.longOnly);
    var m := LookUp(longs, text[..e], shortToo, cfg.longOnly);
    if m.Found? {
      EntryIs(cfg, argv, i, text, m.index, e);
    }
  }

  /** With the place cleared afterwards, which a step on a long option leaves empty anyway. */
  lemma LongClears(cfg: Config, argv: seq<string>, i: nat, text: string, shortToo: bool)
    requires cfg.longOptions.Some? && LongStep(cfg, argv, i, text, shortToo).ret != -1
    ensures LongStep(cfg, argv, i, text, shortToo).place == ""
  {
  }

  lemma WordIs(cfg: Config, argv: seq<string>, i: nat, rest: string)
    requires cfg.Valid() && cfg.longOptions.Some? && i < |argv|
    ensures var f := WordStep(cfg, argv, i, rest);
            if rest != "" then LongMeans(cfg, argv, i, rest, false, f)
            else if i + 1 < |argv| then LongMeans(cfg, argv, i + 1, argv[i + 1], false, f)
            else f == Faulty(cfg, i + 1, 'W' as int)
  {
    hide LongStep, LongMeans, Nothing;
    if rest != "" {
      LongIs(cfg, argv, i, rest, false);
      LongProgress(cfg, argv, i, rest, false);
      LongClears(cfg, argv, i, rest, false);
    } else if i + 1 < |argv| {
      LongIs(cfg, argv, i + 1, argv[i + 1], false);
      LongProgress(cfg, argv, i + 1, argv[i + 1], false);
      LongClears(cfg, argv, i + 1, argv[i + 1], false);
    }
  }

  /** The letter, with the marks behind it in the option string. */
  lemma LetterIs(cfg: Config, argv: seq<string>, i: nat, place: string)
    requires cfg.Valid() && place != "" && i < |argv| && ShortStep(cfg, argv, i, place).ret != -1
    ensures LetterMeans(cfg, argv, i, place, ShortStep(cfg, argv, i, place))
  {
    hide Find, LongMeans, WordStep, Marked;
    var c, rest := place[0], place[1..];
    ListedIs(cfg.options, c);
    if Find(cfg.options, c) < |cfg.options| {
      MarkedIs(cfg.options, c, 1, ':');
      MarkedIs(cfg.options, c, 2, ':');
      MarkedIs(cfg.options, c, 1, ';');
      if cfg.longOptions.Some? {
        WordIs(cfg, argv, i, rest);
      }
    }
  }

  lemma NamesLongIs(cfg: Config, text: string)
    requires cfg.longOptions.Some? && text != ""
    ensures SingleName(text) <==> Find(text, '=') == 1
    ensures NamesLong(cfg, text) <==> !Nothing(cfg.longOptions.value, text[..Find(text, '=')], SingleName(text))
  {
    hide Find;
    var e := Find(text, '=');
    NameEndsIs(text, e);
    NameEndsIs(text, 1);
    assert |text| >= 1 ==> text[..1] == [text[0]];
    forall d: nat | NameEnds(text, d) ensures d == e {
      NameEndsIs(text, d);
    }
  }

  /** Every option step finds what the words mean. */
  lemma OptionIs(cfg: Config, argv: seq<string>, i: nat, place: string)
    requires cfg.Valid() && place != "" && i < |argv| && OptionStep(cfg, argv, i, place).ret != -1
    ensures OptionMeans(cfg, argv, i, place, OptionStep(cfg, argv, i, place))
  {
    hide Find, LongMeans, LongStep, ShortStep, LetterMeans, Nothing, SingleName, NamesLong;
    if cfg.longOptions.Some? && |place| < |argv[i]| && place[0] == '-' {
      LongIs(cfg, argv, i, place[1..], false);
      LongProgress(cfg, argv, i, place[1..], false);
      LongClears(cfg, argv, i, place[1..], false);
    } else if cfg.longOptions.Some? && |place| < |argv[i]| && cfg.longOnly {
      ListedIs(cfg.options, place[0]);
      var shortToo := Listed(cfg.options, place[0]);
      NamesLongIs(cfg, place);
      LongIs(cfg, argv, i, place, shortToo);
      LongValid(cfg, argv, i, place, shortToo);
      if LongStep(cfg, argv, i, place, shortToo).ret != -1 {
        LongClears(cfg, argv, i, place, shortToo);
      } else {
        LetterIs(cfg, argv, i, place);
      }
    } else {
      LetterIs(cfg, argv, i, place);
    }
  }

  /** A long option is given up only when nothing has its name. */
  lemma LongValid(cfg: Config, argv: seq<string>, i: nat, text: string, shortToo: bool)
    requires cfg.Valid() && cfg.longOptions.Some?
    ensures LongStep(cfg, argv, i, text, shortToo).ret == -1 <==>
            shortToo && Nothing(cfg.longOptions.value, text[..Find(text, '=')], Find(text, '=') == 1)
  {
    hide Find, LookUp, Nothing;
    LookUpDenotes(cfg.longOptions.value, text[..Find(text, '=')], shortToo, cfg.longOnly);
  }

  // --- calls and runs -----------------------------------------------------------------------------

  /** A word that is no option. */
  predicate Skipped(cfg: Config, word: string) {
    word == "" || word[0] != '-' || (word == "-" && '-' !in cfg.options)
  }

  /** The text to scan in an option word. */
  function Letters(word: string): string {
    if word == "-" then "-" else if word == "" then "" else word[1..]
  }

  /** From word i the scan gets to word j over operands only; inside a word it stays. */
  predicate Reaches(cfg: Config, argv: seq<string>, i: nat, place: string, j: nat) {
    && i <= j <= |argv| && (place != "" ==> j == i)
    && forall k | i <= k < j :: Skipped(cfg, argv[k]) && cfg.permute && !cfg.allArgs
  }

  /** What a call finds that starts at word i, or inside it at `place`. */
  ghost predicate CallMeans(cfg: Config, argv: seq<string>, i: nat, place: string, f: Step) {
    exists j: nat :: Reaches(cfg, argv, i, place, j) && FoundAt(cfg, argv, j, place, f)
  }

  /** What is found at word j: an option inside it, an operand in order, or an option that opens it. */
  ghost predicate FoundAt(cfg: Config, argv: seq<string>, j: nat, place: string, f: Step) {
    && j < |argv|
    && if place != "" then OptionMeans(cfg, argv, j, place, f)
       else if Skipped(cfg, argv[j]) then cfg.allArgs && f == Gives(1, Some(argv[j]), j + 1, "")
       else argv[j] != "--" && OptionMeans(cfg, argv, j, Letters(argv[j]), f)
  }

  /** Nothing is left to find: the end, "--", an operand that ends the scan, or a dangling dash. */
  ghost predicate Over(cfg: Config, argv: seq<string>, i: nat, place: string) {
    if place != "" then place == "-" && '-' !in cfg.options && cfg.longOptions.None?
    else exists j: nat :: Reaches(cfg, argv, i, "", j) && EndsAt(cfg, argv, j)
  }

  predicate EndsAt(cfg: Config, argv: seq<string>, j: nat) {
    j < |argv| ==> argv[j] == "--" || (Skipped(cfg, argv[j]) && !cfg.allArgs && !cfg.permute)
  }

  /** The findings of a whole run, each starting where the one before ended. */
  ghost predicate RunMeans(cfg: Config, argv: seq<string>, i: nat, place: string, found: seq<Step>)
    decreases |found|
  {
    if found == [] then Over(cfg, argv, i, place)
    else
      && CallMeans(cfg, argv, i, place, found[0])
      && RunMeans(cfg, argv, found[0].optind, found[0].place, found[1..])
  }

  lemma SkippedIs(cfg: Config, word: string)
    ensures IsOperand(cfg, word) <==> Skipped(cfg, word)
    ensures !IsOperand(cfg, word) ==> word != "" && OptionText(word) == Letters(word)
  {
    hide Find;
    ListedIs(cfg.options, '-');
    if word != "" && |word| == 1 {
      assert word == [word[0]];
    }
  }

  /** An operand before the start is skipped. */
  lemma SkipsOne(cfg: Config, argv: seq<string>, i: nat, found: seq<Step>)
    requires i < |argv| && Skipped(cfg, argv[i]) && cfg.permute && !cfg.allArgs
    requires RunMeans(cfg, argv, i + 1, "", found)
    ensures RunMeans(cfg, argv, i, "", found)
  {
    hide Skipped, FoundAt, EndsAt;
    if found == [] {
      assert Over(cfg, argv, i + 1, "");
      var j: nat :| Reaches(cfg, argv, i + 1, "", j) && EndsAt(cfg, argv, j);
      assert Reaches(cfg, argv, i, "", j);
    } else {
      assert CallMeans(cfg, argv, i + 1, "", found[0]);
      var j: nat :| Reaches(cfg, argv, i + 1, "", j) && FoundAt(cfg, argv, j, "", found[0]);
      assert Reaches(cfg, argv, i, "", j);
    }
  }

  /** An option word is opened. */
  lemma OpensWord(cfg: Config, argv: seq<string>, i: nat, found: seq<Step>)
    requires i < |argv| && !Skipped(cfg, argv[i]) && argv[i] != "--"
    requires RunMeans(cfg, argv, i, Letters(argv[i]), found)
    ensures RunMeans(cfg, argv, i, "", found)
  {
    hide OptionMeans;
    var place := Letters(argv[i]);
    assert place == "-" ==> argv[i] == "-" by {
      assert argv[i] != "-" ==> argv[i] == [argv[i][0]] + place;
    }
    assert found != [];
    assert CallMeans(cfg, argv, i, place, found[0]);
    assert FoundAt(cfg, argv, i, "", found[0]);
    assert Reaches(cfg, argv, i, "", i);
  }

  /** The calls of a scan find what the words mean, one after the other and to the end. */
  lemma {:induction false} ReportsMean(cfg: Config, argv: seq<string>, i: nat, place: string)
    requires cfg.Valid() && i <= |argv| && Inside(cfg, argv, i, place)
    ensures RunMeans(cfg, argv, i, place, Remaining(cfg, argv, i, place).reports)
    decreases |argv| - i, if place == "" then 1 else 0, |place|
  {
    hide OptionStep, IsOperand, Skipped, RunMeans, Inside, Letters;
    if place != "" {
      InsideWord(cfg, argv, i, place);
    } else if i == |argv| {
      NothingLeft(cfg, argv, i);
    } else {
      var word := argv[i];
      SkippedIs(cfg, word);
      if !IsOperand(cfg, word) && word != "--" {
        OpenInside(cfg, argv, i);
        ReportsMean(cfg, argv, i, Letters(word));
        OpensWord(cfg, argv, i, Remaining(cfg, argv, i, "").reports);
      } else if IsOperand(cfg, word) && cfg.allArgs {
        NoPlace(cfg, argv, i + 1);
        ReportsMean(cfg, argv, i + 1, "");
        var rest := Remaining(cfg, argv, i + 1, "").reports;
        var r := Report(INORDER, i + 1, "").(optarg := Some(word));
        assert Remaining(cfg, argv, i, "").reports == [r] + rest;
        InOrder(cfg, argv, i);
        RunStep(cfg, argv, i, "", r, rest);
      } else if IsOperand(cfg, word) && cfg.permute {
        NoPlace(cfg, argv, i + 1);
        ReportsMean(cfg, argv, i + 1, "");
        SkipsOne(cfg, argv, i, Remaining(cfg, argv, i, "").reports);
      } else {
        NothingLeft(cfg, argv, i);
      }
    }
  }

  lemma NoPlace(cfg: Config, argv: seq<string>, i: nat)
    ensures Inside(cfg, argv, i, "")
  {
  }

  lemma NothingLeft(cfg: Config, argv: seq<string>, i: nat)
    requires i <= |argv| && (i < |argv| ==> argv[i] == "--" || (Skipped(cfg, argv[i]) && !cfg.allArgs && !cfg.permute))
    ensures RunMeans(cfg, argv, i, "", [])
  {
    hide Skipped;
    assert Reaches(cfg, argv, i, "", i) && EndsAt(cfg, argv, i);
  }

  lemma InOrder(cfg: Config, argv: seq<string>, i: nat)
    requires i < |argv| && Skipped(cfg, argv[i]) && cfg.allArgs
    ensures CallMeans(cfg, argv, i, "", Gives(INORDER, Some(argv[i]), i + 1, ""))
  {
    hide Skipped;
    assert Reaches(cfg, argv, i, "", i) && FoundAt(cfg, argv, i, "", Gives(INORDER, Some(argv[i]), i + 1, ""));
  }

  lemma RunStep(cfg: Config, argv: seq<string>, i: nat, place: string, r: Step, rest: seq<Step>)
    requires CallMeans(cfg, argv, i, place, r) && RunMeans(cfg, argv, r.optind, r.place, rest)
    ensures RunMeans(cfg, argv, i, place, [r] + rest)
  {
    hide CallMeans;
    assert ([r] + rest)[1..] == rest;
  }

  lemma {:induction false} InsideWord(cfg: Config, argv: seq<string>, i: nat, place: string)
    requires cfg.Valid() && i <= |argv| && Inside(cfg, argv, i, place) && place != ""
    ensures RunMeans(cfg, argv, i, place, Remaining(cfg, argv, i, place).reports)
    decreases |argv| - i, if place == "" then 1 else 0, |place|, 0
  {
    hide OptionStep, IsOperand, Skipped, RunMeans, OptionMeans;
    var r := OptionStep(cfg, argv, i, place);
    StepProgress(cfg, argv, i, place);
    if r.ret == -1 {
      Dangles(cfg, argv, i, place);
    } else {
      OptionIs(cfg, argv, i, place);
      assert Reaches(cfg, argv, i, place, i) && FoundAt(cfg, argv, i, place, r);
      ReportsMean(cfg, argv, r.optind, r.place);
      var rest := Remaining(cfg, argv, r.optind, r.place).reports;
      assert Remaining(cfg, argv, i, place).reports == [r] + rest;
      RunStep(cfg, argv, i, place, r, rest);
    }
  }

  lemma Dangles(cfg: Config, argv: seq<string>, i: nat, place: string)
    requires Dangling(cfg, place)
    ensures RunMeans(cfg, argv, i, place, [])
  {
    hide Find;
    ListedIs(cfg.options, '-');
  }

  // --- one call, step by step -------------------------------------------------------------------------

  /** A call that started at word i, or at `from` inside it, has got to word j, or to `place` inside it. */
  predicate Arrived(cfg: Config, argv: seq<string>, i: nat, from: string, j: nat, place: string) {
    if place == "" then from == "" && Reaches(cfg, argv, i, "", j)
    else
      || (from == place && i == j < |argv|)
      || (from == "" && Reaches(cfg, argv, i, "", j) && j < |argv| && !Skipped(cfg, argv[j]) && argv[j] != "--"
          && place == Letters(argv[j]))
  }

  lemma ArrivedSkips(cfg: Config, argv: seq<string>, i: nat, from: string, j: nat)
    requires Arrived(cfg, argv, i, from, j, "") && j < |argv| && IsOperand(cfg, argv[j]) && cfg.permute && !cfg.allArgs
    ensures Arrived(cfg, argv, i, from, j + 1, "")
  {
    hide Skipped, IsOperand;
    SkippedIs(cfg, argv[j]);
  }

  lemma ArrivedOpens(cfg: Config, argv: seq<string>, i: nat, from: string, j: nat)
    requires Arrived(cfg, argv, i, from, j, "") && j < |argv| && !IsOperand(cfg, argv[j]) && argv[j] != "--"
    ensures argv[j] != "" && Arrived(cfg, argv, i, from, j, OptionText(argv[j]))
  {
    hide Skipped, IsOperand;
    SkippedIs(cfg, argv[j]);
    OpenInside(cfg, argv, j);
  }

  lemma ArrivedOption(cfg: Config, argv: seq<string>, i: nat, from: string, j: nat, place: string)
    requires Arrived(cfg, argv, i, from, j, place) && place != "" && cfg.Valid() && j < |argv|
    requires OptionStep(cfg, argv, j, place).ret != -1
    ensures CallMeans(cfg, argv, i, from, OptionStep(cfg, argv, j, place))
  {
    hide Skipped, OptionStep, OptionMeans;
    var f := OptionStep(cfg, argv, j, place);
    OptionIs(cfg, argv, j, place);
    assert Reaches(cfg, argv, i, from, j) && FoundAt(cfg, argv, j, from, f);
  }

  lemma ArrivedOperand(cfg: Config, argv: seq<string>, i: nat, from: string, j: nat)
    requires Arrived(cfg, argv, i, from, j, "") && j < |argv| && IsOperand(cfg, argv[j]) && cfg.allArgs
    ensures CallMeans(cfg, argv, i, from, Gives(INORDER, Some(argv[j]), j + 1, ""))
  {
    hide Skipped, IsOperand;
    SkippedIs(cfg, argv[j]);
    assert FoundAt(cfg, argv, j, "", Gives(INORDER, Some(argv[j]), j + 1, ""));
  }
}
