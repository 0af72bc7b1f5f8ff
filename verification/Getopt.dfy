/**
 The command line scanner of lib/util/getopt_long.c: values.

 Words hold no NUL character, so the end of a string stands for its terminator.
 `place` points into the word being scanned; it is modelled as the text from
 there to the end of the word, and it is empty when a new word has to be fetched.
 */
module GetoptSpec {

  datatype Option<T> = None | Some(value: T)

  datatype HasArg = NoArgument | RequiredArgument | OptionalArgument

  /** `flag` names the cell the source points at. */
  datatype LongOption = LongOption(name: string, hasArg: HasArg, flag: Option<int>, val: int)

  /** Settings of one run, after the leading '+' or '-' of the option string is stripped. */
  datatype Config = Config(
    options: string, longOptions: Option<seq<LongOption>>, permute: bool, allArgs: bool, longOnly: bool)
  {
    /** -1 marks the end of the scan, so no table entry may report it. */
    ghost predicate Valid() {
      longOptions.Some? ==> forall o | o in longOptions.value :: o.val != -1
    }
  }

  function MakeConfig(options: string, longOptions: Option<seq<LongOption>>, permute: bool, longOnly: bool,
                      posixlyCorrect: bool): Config
  {
    var inOrder := options != "" && options[0] == '-';
    var stop := options != "" && options[0] == '+';
    Config(if inOrder || stop then options[1..] else options, longOptions,
           permute && (inOrder || !(posixlyCorrect || stop)), inOrder, longOnly)
  }

  const BADCH := '?' as int
  const INORDER := 1

  function BadArg(cfg: Config): int {
    if cfg.options != "" && cfg.options[0] == ':' then ':' as int else BADCH
  }

  /** strchr: the first position of c, or the length of s. */
  function Find(s: string, c: char): (k: nat)
    ensures k <= |s| && c !in s[..k] && (k < |s| ==> s[k] == c)
  {
    if s == "" || s[0] == c then 0 else 1 + Find(s[1..], c)
  }

  // --- long options -----------------------------------------------------

  datatype Match = Found(index: nat) | Ambiguous | Unknown

  predicate Fits(o: LongOption, name: string, exact: bool) {
    if exact then o.name == name else name <= o.name
  }

  /** The first entry that fits, or the length of the table. */
  function First(longs: seq<LongOption>, name: string, exact: bool): (i: nat)
    ensures i <= |longs| && (i < |longs| ==> Fits(longs[i], name, exact))
    ensures forall j | 0 <= j < i :: !Fits(longs[j], name, exact)
  {
    if longs == [] || Fits(longs[0], name, exact) then 0 else 1 + First(longs[1..], name, exact)
  }

  /** Two abbreviated entries that a caller could tell apart. */
  predicate Clash(a: LongOption, b: LongOption, longOnly: bool) {
    longOnly || a.hasArg != b.hasArg || a.flag != b.flag || a.val != b.val
  }

  /** The entry `name` denotes: an exact name wins, then an abbreviation unless it is ambiguous. */
  function LookUp(longs: seq<LongOption>, name: string, shortToo: bool, longOnly: bool): (r: Match)
    ensures r.Found? ==> r.index < |longs|
  {
    var exact, partial := First(longs, name, true), First(longs, name, false);
    if exact < |longs| then Found(exact)
    else if (shortToo && |name| == 1) || partial == |longs| then Unknown
    else if exists j :: partial < j < |longs| && Fits(longs[j], name, false) && Clash(longs[j], longs[partial], longOnly)
    then Ambiguous else Found(partial)
  }

  // --- one option -------------------------------------------------------

  /**
   What one call reports and stores.  `optopt`, `longIndex` and `stored` are None
   when the call leaves the corresponding cell alone.
   */
  datatype Step = Step(
    ret: int, optind: nat, place: string, optarg: Option<string>, optopt: Option<int>,
    longIndex: Option<nat>, stored: Option<(int, int)>)

  function Report(ret: int, optind: nat, place: string): Step {
    Step(ret, optind, place, None, None, None, None)
  }

  function Complain(ret: int, optind: nat, place: string, optopt: int): Step {
    Step(ret, optind, place, None, Some(optopt), None, None)
  }

  /** The entry i was found, with '=' at position eq of `place`; argv[|argv|] is the null terminator. */
  function FoundStep(cfg: Config, argv: seq<string>, optind: nat, place: string, i: nat, eq: nat): (r: Step)
    requires cfg.longOptions.Some? && i < |cfg.longOptions.value| && eq <= |place|
  {
    var o := cfg.longOptions.value[i];
    var hasEqual := eq < |place|;
    var needsNext := o.hasArg.RequiredArgument? && !hasEqual;
    if (o.hasArg.NoArgument? && hasEqual) || (needsNext && optind + 1 >= |argv|) then
      Complain(BadArg(cfg), optind + 1, "", if o.flag.None? then o.val else 0)
    else
      Step(if o.flag.Some? then 0 else o.val, optind + (if needsNext then 2 else 1), "",
           if hasEqual then Some(place[eq + 1..]) else if needsNext then Some(argv[optind + 1]) else None,
           None, Some(i), if o.flag.Some? then Some((o.flag.value, o.val)) else None)
  }

  /** parse_long_options, with `place` at the name. */
  function LongStep(cfg: Config, argv: seq<string>, optind: nat, place: string, shortToo: bool): (r: Step)
    requires cfg.longOptions.Some?
  {
    var eq := Find(place, '=');
    match LookUp(cfg.longOptions.value, place[..eq], shortToo, cfg.longOnly)
    case Ambiguous => Complain(BADCH, optind + 1, "", 0)
    case Unknown => if shortToo then Report(-1, optind, place) else Complain(BADCH, optind + 1, "", 0)
    case Found(i) => FoundStep(cfg, argv, optind, place, i, eq)
  }

  /** Lines 438-454: -W, with the long option in `rest` or in the next word. */
  function WordStep(cfg: Config, argv: seq<string>, optind: nat, rest: string): (r: Step)
    requires cfg.longOptions.Some?
  {
    if rest != "" then LongStep(cfg, argv, optind, rest, false).(place := "")
    else if optind + 1 >= |argv| then Complain(BadArg(cfg), optind + 1, "", 'W' as int)
    else LongStep(cfg, argv, optind + 1, argv[optind + 1], false).(place := "")
  }

  /** Lines 455-476: the letter c, with `after` what follows it in the option string. */
  function ArgumentStep(cfg: Config, argv: seq<string>, optind: nat, c: char, rest: string, after: string): (r: Step) {
    if after == "" || after[0] != ':' then
      Report(c as int, optind + (if rest == "" then 1 else 0), rest)
    else if rest != "" then
      Report(c as int, optind + 1, "").(optarg := Some(rest))
    else if |after| > 1 && after[1] == ':' then
      Report(c as int, optind + 1, "")
    else if optind + 1 >= |argv| then
      Complain(BadArg(cfg), optind + 1, "", c as int)
    else
      Report(c as int, optind + 2, "").(optarg := Some(argv[optind + 1]))
  }

  /** Lines 421-476: the option letter at `place`. */
  function ShortStep(cfg: Config, argv: seq<string>, optind: nat, place: string): (r: Step)
    requires place != ""
  {
    var c, rest := place[0], place[1..];
    var k := Find(cfg.options, c);
    if c == ':' || (c == '-' && rest != "") || k == |cfg.options| then
      if c == '-' && rest == "" then Report(-1, optind, "")
      else Complain(BADCH, optind + (if rest == "" then 1 else 0), rest, c as int)
    else
      var after := cfg.options[k + 1..];
      if cfg.longOptions.Some? && c == 'W' && after != "" && after[0] == ';'
      then WordStep(cfg, argv, optind, rest)
      else ArgumentStep(cfg, argv, optind, c, rest, after)
  }

  /** Lines 405-476: `place` is not empty and lies in the word argv[optind]. */
  function OptionStep(cfg: Config, argv: seq<string>, optind: nat, place: string): (r: Step)
    requires place != "" && optind < |argv|
  {
    if cfg.longOptions.Some? && |place| < |argv[optind]| && (place[0] == '-' || cfg.longOnly) then
      if place[0] == '-' then LongStep(cfg, argv, optind, place[1..], false).(place := "")
      else
        var shortToo := place[0] != ':' && Find(cfg.options, place[0]) < |cfg.options|;
        var r := LongStep(cfg, argv, optind, place, shortToo);
        if r.ret != -1 then r.(place := "") else ShortStep(cfg, argv, optind, place)
    else
      ShortStep(cfg, argv, optind, place)
  }

  /** A '-' that closes a cluster of letters although the option string does not list it. */
  predicate Dangling(cfg: Config, place: string) {
    cfg.longOptions.None? && place == "-" && Find(cfg.options, '-') == |cfg.options|
  }

  /** A word that is not an option: no leading '-', or a lone '-' the option string does not list. */
  predicate IsOperand(cfg: Config, word: string) {
    word == "" || word[0] != '-' || (word == "-" && Find(cfg.options, '-') == |cfg.options|)
  }

  /** `place` is a proper position in the word argv[optind]. */
  ghost predicate Inside(cfg: Config, argv: seq<string>, optind: nat, place: string) {
    place == "" || (optind < |argv| && |place| <= |argv[optind]|
                    && place == argv[optind][|argv[optind]| - |place|..]
                    && argv[optind][0] == '-' && (|place| == |argv[optind]| ==> place == "-" && !IsOperand(cfg, place)))
  }

  lemma InsideIsOption(cfg: Config, argv: seq<string>, optind: nat, place: string)
    requires Inside(cfg, argv, optind, place) && place != ""
    ensures !IsOperand(cfg, argv[optind])
  {
    if argv[optind] == "-" {
      assert |place| == |argv[optind]|;
    }
  }

  lemma LongProgress(cfg: Config, argv: seq<string>, optind: nat, place: string, shortToo: bool)
    requires cfg.Valid() && cfg.longOptions.Some? && optind < |argv|
    ensures var r := LongStep(cfg, argv, optind, place, shortToo);
            && (r.ret != -1 ==> optind < r.optind <= |argv|)
            && (!shortToo ==> r.ret != -1)
  {
  }

  lemma ShortProgress(cfg: Config, argv: seq<string>, optind: nat, place: string)
    requires cfg.Valid() && place != "" && optind < |argv| && Inside(cfg, argv, optind, place)
    ensures var r := ShortStep(cfg, argv, optind, place);
            && r.optind <= |argv|
            && (r.ret == -1 <==> place == "-" && Find(cfg.options, '-') == |cfg.options|)
            && (r.ret == -1 ==> r.place == "" && r.optind == optind)
            && (r.ret != -1 && r.place == "" ==> r.optind > optind)
            && (r.place != "" ==> r.optind == optind && r.place == place[1..])
  {
    hide LongStep, IsOperand;
    if cfg.longOptions.Some? {
      LongProgress(cfg, argv, optind, place[1..], false);
      if optind + 1 < |argv| {
        LongProgress(cfg, argv, optind + 1, argv[optind + 1], false);
      }
    }
  }

  /** Each call either finishes the word or moves along it; it reports -1 only on a dangling '-'. */
  lemma StepProgress(cfg: Config, argv: seq<string>, optind: nat, place: string)
    requires cfg.Valid() && place != "" && optind < |argv| && Inside(cfg, argv, optind, place)
    ensures var r := OptionStep(cfg, argv, optind, place);
            && r.optind <= |argv| && Inside(cfg, argv, r.optind, r.place)
            && (r.ret == -1 <==> Dangling(cfg, place))
            && (r.ret == -1 ==> r.place == "" && r.optind == optind)
            && (r.ret != -1 && r.place == "" ==> r.optind > optind)
            && (r.place != "" ==> r.optind == optind && |r.place| < |place|)
  {
    hide LongStep, ShortStep;
    ShortProgress(cfg, argv, optind, place);
    if cfg.longOptions.Some? {
      if place[0] == '-' {
        LongProgress(cfg, argv, optind, place[1..], false);
      } else {
        var shortToo := place[0] != ':' && Find(cfg.options, place[0]) < |cfg.options|;
        LongProgress(cfg, argv, optind, place, shortToo);
      }
    }
  }

  lemma DanglingStep(cfg: Config, argv: seq<string>, optind: nat, place: string)
    requires optind < |argv| && Dangling(cfg, place)
    ensures OptionStep(cfg, argv, optind, place) == Report(-1, optind, "")
  {
  }

  /** Both argument vectors agree from optind on. */
  ghost predicate SameTail(argv: seq<string>, other: seq<string>, optind: nat) {
    |argv| == |other| && forall i | optind <= i < |argv| :: argv[i] == other[i]
  }

  lemma LongLocal(cfg: Config, argv: seq<string>, other: seq<string>, optind: nat, place: string, shortToo: bool)
    requires cfg.longOptions.Some? && SameTail(argv, other, optind)
    ensures LongStep(cfg, argv, optind, place, shortToo) == LongStep(cfg, other, optind, place, shortToo)
  {
    hide LookUp, Find;
  }

  lemma ShortLocal(cfg: Config, argv: seq<string>, other: seq<string>, optind: nat, place: string)
    requires place != "" && optind < |argv| && SameTail(argv, other, optind)
    ensures ShortStep(cfg, argv, optind, place) == ShortStep(cfg, other, optind, place)
  {
    hide LongStep, Find;
    if cfg.longOptions.Some? {
      LongLocal(cfg, argv, other, optind, place[1..], false);
      if optind + 1 < |argv| {
        LongLocal(cfg, argv, other, optind + 1, argv[optind + 1], false);
      }
    }
  }

  /** A step reads no word before argv[optind]. */
  lemma StepLocal(cfg: Config, argv: seq<string>, other: seq<string>, optind: nat, place: string)
    requires place != "" && optind < |argv| && SameTail(argv, other, optind)
    ensures OptionStep(cfg, argv, optind, place) == OptionStep(cfg, other, optind, place)
  {
    hide LongStep, ShortStep, Find;
    ShortLocal(cfg, argv, other, optind, place);
    if cfg.longOptions.Some? {
      LongLocal(cfg, argv, other, optind, place[1..], false);
      var shortToo := place[0] != ':' && Find(cfg.options, place[0]) < |cfg.options|;
      LongLocal(cfg, argv, other, optind, place, shortToo);
    }
  }

  // --- a whole scan, on the words in their original order ---------------

  /**
   The outcome of a scan without any reordering: `opts` are the option words with
   their arguments and a closing "--", `operands` the words skipped on the way,
   `rest` what was never looked at, `reports` what the calls report.
   */
  datatype Plan = Plan(opts: seq<string>, operands: seq<string>, rest: seq<string>, reports: seq<Step>, interrupted: bool)

  /** Text to scan in a word that is not an operand. */
  function OptionText(word: string): string
    requires word != ""
  {
    if |word| == 1 then word else word[1..]
  }

  lemma OpenInside(cfg: Config, argv: seq<string>, optind: nat)
    requires optind < |argv| && !IsOperand(cfg, argv[optind])
    ensures argv[optind] != "" && OptionText(argv[optind]) != "" && Inside(cfg, argv, optind, OptionText(argv[optind]))
  {
    hide Find;
    var word := argv[optind];
    if |word| == 1 {
      assert word == [word[0]];
      assert word[|word| - 1..] == word;
    }
  }

  ghost function Remaining(cfg: Config, argv: seq<string>, optind: nat, place: string): (p: Plan)
    requires cfg.Valid() && optind <= |argv| && Inside(cfg, argv, optind, place)
    decreases |argv| - optind, if place == "" then 1 else 0, |place|
  {
    if place == "" then
      if optind == |argv| then Plan([], [], [], [], false)
      else
        var word := argv[optind];
        if IsOperand(cfg, word) then
          if cfg.allArgs then
            var p := Remaining(cfg, argv, optind + 1, "");
            p.(opts := [word] + p.opts, reports := [Report(INORDER, optind + 1, "").(optarg := Some(word))] + p.reports)
          else if !cfg.permute then Plan([], [], argv[optind..], [], false)
          else
            var p := Remaining(cfg, argv, optind + 1, "");
            p.(operands := [word] + p.operands)
        else if word == "--" then Plan([word], [], argv[optind + 1..], [], false)
        else Remaining(cfg, argv, optind, OptionText(word))
    else
      var r := OptionStep(cfg, argv, optind, place);
      StepProgress(cfg, argv, optind, place);
      if r.ret == -1 then Plan([argv[optind]], [], argv[optind + 1..], [], true)
      else
        var p := Remaining(cfg, argv, r.optind, r.place);
        p.(opts := argv[optind..r.optind] + p.opts, reports := [r] + p.reports)
  }

  ghost function Scan(cfg: Config, argv: seq<string>): (p: Plan)
    requires cfg.Valid() && |argv| >= 1
  {
    Remaining(cfg, argv, 1, "")
  }
}
