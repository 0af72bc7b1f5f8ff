/**
 The scanner of lib/util/getopt_long.c as it runs: static state, in-place
 reordering of the argument vector, one option per call.
 */
module GetoptScanner {
  import opened GetoptSpec
  import opened GetoptInterruption
  import opened GetoptMeaning
  import opened BlockSwap

  // --- where the words are between two calls ------------------------------

  /** The words before optind: options seen so far around the block of skipped operands. */
  ghost predicate Layout(cfg: Config, argv: seq<string>, optind: nat, start: int, end: int,
                         opts: seq<string>, operands: seq<string>)
  {
    && 1 <= optind <= |argv|
    && if start == -1 then
         end == -1 && operands == [] && argv[1..optind] == opts
       else if end == -1 then
         1 <= start < optind && argv[1..start] == opts && argv[start..optind] == operands && IsOperand(cfg, argv[start])
       else
         && 1 <= start < end <= optind && end < |argv|
         && argv[1..start] + argv[end..optind] == opts && argv[start..end] == operands
         && IsOperand(cfg, argv[start]) && !IsOperand(cfg, argv[end])
  }

  /** The skipped operands are back to back with optind. */
  ghost predicate Settled(argv: seq<string>, start: nat, optind: nat, opts: seq<string>, operands: seq<string>) {
    1 <= start <= optind <= |argv| && argv[1..start] == opts && argv[start..optind] == operands
  }

  /** permute_args moves the operands behind the options. */
  lemma ExchangeSettles(cfg: Config, argv: seq<string>, optind: nat, start: nat, end: nat,
                        opts: seq<string>, operands: seq<string>)
    requires Layout(cfg, argv, optind, start, end, opts, operands) && end < optind
    ensures var argv' := Exchanged(argv, start, end, optind);
            && Settled(argv', optind - (end - start), optind, opts, operands)
            && argv'[optind - (end - start)] == argv[start]
            && argv'[0] == argv[0] && SameTail(argv', argv, optind)
  {
    var argv' := Exchanged(argv, start, end, optind);
    var mid := optind - (end - start);
    assert argv'[1..mid] == argv[1..start] + argv[end..optind];
    assert argv'[mid..optind] == argv[start..end];
  }

  /** What the scan still has to do completes what it has done to the whole scan. */
  ghost predicate Balanced(cfg: Config, orig: seq<string>, optind: nat, place: string,
                           opts: seq<string>, operands: seq<string>, reports: seq<Step>)
  {
    && cfg.Valid() && 1 <= optind <= |orig| && Inside(cfg, orig, optind, place)
    && var p := Remaining(cfg, orig, optind, place);
       Scan(cfg, orig) == Plan(opts + p.opts, operands + p.operands, p.rest, reports + p.reports, p.interrupted)
  }

  lemma ReportsLeft(cfg: Config, orig: seq<string>, optind: nat, place: string,
                    opts: seq<string>, operands: seq<string>, reports: seq<Step>)
    requires Balanced(cfg, orig, optind, place, opts, operands, reports)
    ensures |reports| <= |Scan(cfg, orig).reports|
  {
    hide Remaining, Scan;
  }

  lemma BalancedOperand(cfg: Config, orig: seq<string>, optind: nat, opts: seq<string>, operands: seq<string>, reports: seq<Step>)
    requires Balanced(cfg, orig, optind, "", opts, operands, reports)
    requires optind < |orig| && IsOperand(cfg, orig[optind]) && cfg.permute && !cfg.allArgs
    ensures Balanced(cfg, orig, optind + 1, "", opts, operands + [orig[optind]], reports)
  {
    var p := Remaining(cfg, orig, optind + 1, "");
    assert operands + ([orig[optind]] + p.operands) == operands + [orig[optind]] + p.operands;
  }

  lemma BalancedStep(cfg: Config, orig: seq<string>, optind: nat, place: string,
                     opts: seq<string>, operands: seq<string>, reports: seq<Step>)
    requires Balanced(cfg, orig, optind, place, opts, operands, reports)
    requires optind < |orig| && place != "" && !Dangling(cfg, place)
    ensures var r := OptionStep(cfg, orig, optind, place);
            && optind <= r.optind <= |orig|
            && Balanced(cfg, orig, r.optind, r.place, opts + orig[optind..r.optind], operands, reports + [r])
  {
    hide OptionStep, Inside, Dangling;
    StepProgress(cfg, orig, optind, place);
    var r := OptionStep(cfg, orig, optind, place);
    var p := Remaining(cfg, orig, r.optind, r.place);
    assert opts + (orig[optind..r.optind] + p.opts) == opts + orig[optind..r.optind] + p.opts;
    assert reports + ([r] + p.reports) == reports + [r] + p.reports;
  }

  lemma BalancedInOrder(cfg: Config, orig: seq<string>, optind: nat, opts: seq<string>, operands: seq<string>, reports: seq<Step>)
    requires Balanced(cfg, orig, optind, "", opts, operands, reports)
    requires optind < |orig| && IsOperand(cfg, orig[optind]) && cfg.allArgs
    ensures var r := Report(INORDER, optind + 1, "").(optarg := Some(orig[optind]));
            Balanced(cfg, orig, optind + 1, "", opts + [orig[optind]], operands, reports + [r])
  {
    var p := Remaining(cfg, orig, optind + 1, "");
    var r := Report(INORDER, optind + 1, "").(optarg := Some(orig[optind]));
    assert opts + ([orig[optind]] + p.opts) == opts + [orig[optind]] + p.opts;
    assert reports + ([r] + p.reports) == reports + [r] + p.reports;
  }

  /** The stable partition the scan is meant to leave behind. */
  ghost predicate Partitioned(argv: seq<string>, optind: nat, head: string, p: Plan) {
    argv == [head] + p.opts + p.operands + p.rest && optind == 1 + |p.opts|
  }

  lemma PartitionFromSettled(argv: seq<string>, start: nat, optind: nat, head: string, p: Plan)
    requires Settled(argv, start, optind, p.opts, p.operands) && argv[0] == head && argv[optind..] == p.rest
    ensures Partitioned(argv, start, head, p)
  {
    assert argv == argv[..1] + argv[1..start] + argv[start..optind] + argv[optind..];
  }

  /** Fetching an option word does not change what remains to be done. */
  lemma BalancedOpen(cfg: Config, orig: seq<string>, optind: nat, opts: seq<string>, operands: seq<string>, reports: seq<Step>)
    requires Balanced(cfg, orig, optind, "", opts, operands, reports)
    requires optind < |orig| && !IsOperand(cfg, orig[optind]) && orig[optind] != "--"
    ensures Balanced(cfg, orig, optind, OptionText(orig[optind]), opts, operands, reports)
  {
  }

  /** An option word ends the block of operands. */
  lemma LayoutClose(cfg: Config, argv: seq<string>, optind: nat, start: int, opts: seq<string>, operands: seq<string>)
    requires Layout(cfg, argv, optind, start, -1, opts, operands) && start != -1
    requires optind < |argv| && !IsOperand(cfg, argv[optind])
    ensures Layout(cfg, argv, optind, start, optind, opts, operands)
  {
    assert argv[1..start] + argv[optind..optind] == argv[1..start];
  }

  /** One more operand behind those already skipped. */
  lemma LayoutSkip(cfg: Config, argv: seq<string>, optind: nat, start: nat, opts: seq<string>, operands: seq<string>)
    requires Settled(argv, start, optind, opts, operands)
    requires optind < |argv| && IsOperand(cfg, argv[start])
    ensures Layout(cfg, argv, optind + 1, start, -1, opts, operands + [argv[optind]])
  {
    hide IsOperand;
    assert argv[start..optind + 1] == argv[start..optind] + [argv[optind]];
  }

  lemma TailSlice(argv: seq<string>, other: seq<string>, optind: nat)
    requires SameTail(argv, other, optind) && optind <= |argv|
    ensures argv[optind..] == other[optind..]
  {
  }

  /** More option words. */
  lemma LayoutAdvance(cfg: Config, argv: seq<string>, optind: nat, next: nat, start: int, end: int,
                      opts: seq<string>, operands: seq<string>)
    requires Layout(cfg, argv, optind, start, end, opts, operands) && optind <= next <= |argv| && (start != -1 ==> end != -1)
    ensures Layout(cfg, argv, next, start, end, opts + argv[optind..next], operands)
  {
    hide IsOperand;
    if start != -1 {
      assert argv[end..next] == argv[end..optind] + argv[optind..next];
    } else {
      assert argv[1..next] == argv[1..optind] + argv[optind..next];
    }
  }

  lemma LayoutOpen(cfg: Config, argv: seq<string>, optind: nat, start: nat, opts: seq<string>, operands: seq<string>)
    requires Layout(cfg, argv, optind, start, -1, opts, operands)
    ensures Settled(argv, start, optind, opts, operands) && IsOperand(cfg, argv[start])
  {
  }

  lemma LayoutRange(cfg: Config, argv: seq<string>, optind: nat, start: int, end: int,
                    opts: seq<string>, operands: seq<string>)
    requires Layout(cfg, argv, optind, start, end, opts, operands)
    ensures if start == -1 then end == -1 else 1 <= start < optind <= |argv| && (end == -1 || start < end <= optind)
    ensures start != -1 ==> IsOperand(cfg, argv[start])
  {
  }

  /** No operand was skipped. */
  lemma LayoutNone(cfg: Config, argv: seq<string>, optind: nat, opts: seq<string>, operands: seq<string>)
    requires Layout(cfg, argv, optind, -1, -1, opts, operands)
    ensures operands == [] && Settled(argv, optind, optind, opts, operands)
  {
  }

  /** The three regular ways for a scan to end, and the irregular one. */
  lemma BalancedAtEnd(cfg: Config, orig: seq<string>, optind: nat, place: string,
                      opts: seq<string>, operands: seq<string>, reports: seq<Step>)
    requires Balanced(cfg, orig, optind, place, opts, operands, reports)
    ensures place == "" && optind == |orig| ==> Scan(cfg, orig) == Plan(opts, operands, [], reports, false)
    ensures optind < |orig| && place == "" && orig[optind] == "--" ==>
              Scan(cfg, orig) == Plan(opts + ["--"], operands, orig[optind + 1..], reports, false)
    ensures optind < |orig| && place == "" && IsOperand(cfg, orig[optind]) && !cfg.permute && !cfg.allArgs ==>
              Scan(cfg, orig) == Plan(opts, operands, orig[optind..], reports, false)
    ensures optind < |orig| && place != "" && Dangling(cfg, place) ==>
              Scan(cfg, orig) == Plan(opts + [orig[optind]], operands, orig[optind + 1..], reports, true)
  {
    hide OptionStep;
    if optind < |orig| && place != "" {
      StepProgress(cfg, orig, optind, place);
    }
    assert opts + [] == opts && operands + [] == operands && reports + [] == reports;
  }

  /** Stopping on a dangling '-' leaves the words unsorted or optind on an option. */
  lemma InterruptedUnsorted(cfg: Config, argv: seq<string>, optind: nat, start: int, end: int,
                            opts: seq<string>, operands: seq<string>, head: string, p: Plan)
    requires Layout(cfg, argv, optind, start, end, opts, operands) && optind < |argv|
    requires start != -1 ==> end != -1
    requires !IsOperand(cfg, argv[optind])
    requires p.opts == opts + [argv[optind]] && p.operands == operands
    ensures !Partitioned(argv, optind, head, p)
  {
    if start != -1 {
      var expected := [head] + p.opts + p.operands + p.rest;
      assert expected[start] == p.opts[start - 1];
      assert p.opts[start - 1] == if end < optind then argv[end] else argv[optind];
    }
  }

  // --- the scanner ----------------------------------------------------------

  /** The search loop of parse_long_options. */
  method FindLong(longs: seq<LongOption>, name: string, shortToo: bool, longOnly: bool) returns (r: Match)
    ensures r == LookUp(longs, name, shortToo, longOnly)
  {
    var matched := |longs|;
    var secondPartial := false;
    for i := 0 to |longs|
      invariant forall j | 0 <= j < i :: !Fits(longs[j], name, true)
      invariant if shortToo && |name| == 1 then matched == |longs| && !secondPartial
                else matched == if First(longs, name, false) < i then First(longs, name, false) else |longs|
      invariant secondPartial <==>
                  exists j :: matched < j < i && Fits(longs[j], name, false) && Clash(longs[j], longs[matched], longOnly)
    {
      if name <= longs[i].name {
        if longs[i].name == name {
          return Found(i);
        }
        if !(shortToo && |name| == 1) {
          if matched == |longs| {
            matched := i;
          } else if longOnly || longs[i].hasArg != longs[matched].hasArg || longs[i].flag != longs[matched].flag
                             || longs[i].val != longs[matched].val {
            assert Clash(longs[i], longs[matched], longOnly);
            secondPartial := true;
          }
        }
      }
    }
    if secondPartial {
      return Ambiguous;
    }
    return if matched < |longs| then Found(matched) else Unknown;
  }

  class Scanner {
    var optind: nat
    var place: string
    var optarg: Option<string>
    var optopt: int
    var longIndex: Option<nat>
    var cells: map<int, int>
    var nonoptStart: int
    var nonoptEnd: int

    ghost var orig: seq<string>
    ghost var opts: seq<string>
    ghost var operands: seq<string>
    ghost var reports: seq<Step>

    /** The effect of a step on the cells a caller can see. */
    twostate predicate Does(r: Step)
      reads this
    {
      && optind == r.optind && place == r.place && optarg == r.optarg
      && optopt == (if r.optopt.Some? then r.optopt.value else old(optopt))
      && longIndex == (if r.longIndex.Some? then r.longIndex else old(longIndex))
      && cells == (if r.stored.Some? then old(cells)[r.stored.value.0 := r.stored.value.1] else old(cells))
    }

    /** Lines 220-265 and 276-282: a table entry was found; '=' is at position eq of `place`. */
    method AcceptLong(nargv: array<string>, cfg: Config, i: nat, eq: nat) returns (ret: int)
      requires cfg.longOptions.Some? && i < |cfg.longOptions.value| && 1 <= optind <= nargv.Length && optarg == None
      requires eq <= |place|
      modifies this`optind, this`place, this`optarg, this`optopt, this`longIndex, this`cells
      ensures var r := FoundStep(cfg, nargv[..], old(optind) - 1, old(place), i, eq);
              ret == r.ret && Does(r)
    {
      var o := cfg.longOptions.value[i];
      if o.hasArg == NoArgument && eq < |place| {
        optopt := if o.flag.None? then o.val else 0;
        place := "";
        return BadArg(cfg);
      }
      if o.hasArg == RequiredArgument || o.hasArg == OptionalArgument {
        if eq < |place| {
          optarg := Some(place[eq + 1..]);
        } else if o.hasArg == RequiredArgument {
          optarg := if optind < nargv.Length then Some(nargv[optind]) else None;
          optind := optind + 1;
        }
      }
      place := "";
      if o.hasArg == RequiredArgument && optarg == None {
        optopt := if o.flag.None? then o.val else 0;
        optind := optind - 1;
        return BadArg(cfg);
      }
      longIndex := Some(i);
      if o.flag.Some? {
        cells := cells[o.flag.value := o.val];
        return 0;
      }
      return o.val;
    }

    method ParseLongOptions(nargv: array<string>, cfg: Config, shortToo: bool) returns (ret: int)
      requires cfg.longOptions.Some? && optind < nargv.Length && optarg == None
      modifies this`optind, this`place, this`optarg, this`optopt, this`longIndex, this`cells
      ensures var r := LongStep(cfg, nargv[..], old(optind), old(place), shortToo);
              ret == r.ret && Does(r)
    {
      hide FoundStep, LookUp, Find;
      optind := optind + 1;
      var eq := Find(place, '=');
      var m := FindLong(cfg.longOptions.value, place[..eq], shortToo, cfg.longOnly);
      if m.Found? {
        ret := AcceptLong(nargv, cfg, m.index, eq);
        return;
      }
      if m == Unknown && shortToo {
        optind := optind - 1;
        return -1;
      }
      optopt := 0;
      place := "";
      return BADCH;
    }

    /** Lines 438-454: -W, with a long option in the rest of the word or in the next word. */
    method ParseWord(nargv: array<string>, cfg: Config) returns (ret: int)
      requires cfg.longOptions.Some? && optind < nargv.Length && optarg == None
      modifies this`optind, this`place, this`optarg, this`optopt, this`longIndex, this`cells
      ensures var r := WordStep(cfg, nargv[..], old(optind), old(place));
              ret == r.ret && Does(r)
    {
      hide LongStep;
      if place == "" {
        optind := optind + 1;
        if optind >= nargv.Length {
          optopt := 'W' as int;
          return BadArg(cfg);
        }
        place := nargv[optind];
      }
      ret := ParseLongOptions(nargv, cfg, false);
      place := "";
    }

    /** Lines 455-476: the letter c, with `after` what follows it in the option string. */
    method ParseArgument(nargv: array<string>, cfg: Config, c: char, after: string) returns (ret: int)
      requires optind < nargv.Length && optarg == None
      modifies this`optind, this`place, this`optarg, this`optopt
      ensures var r := ArgumentStep(cfg, nargv[..], old(optind), c, old(place), after);
              ret == r.ret && Does(r)
    {
      if after == "" || after[0] != ':' {
        if place == "" {
          optind := optind + 1;
        }
        return c as int;
      }
      if place != "" {
        optarg := Some(place);
      } else if |after| == 1 || after[1] != ':' {
        optind := optind + 1;
        if optind >= nargv.Length {
          optopt := c as int;
          return BadArg(cfg);
        }
        optarg := Some(nargv[optind]);
      }
      place := "";
      optind := optind + 1;
      return c as int;
    }

    /** Lines 421-476 of getopt_internal: the letter at `place`. */
    method ParseLetter(nargv: array<string>, cfg: Config) returns (ret: int)
      requires place != "" && optind < nargv.Length && optarg == None
      modifies this`optind, this`place, this`optarg, this`optopt, this`longIndex, this`cells
      ensures var r := ShortStep(cfg, nargv[..], old(optind), old(place));
              ret == r.ret && Does(r)
    {
      hide WordStep, ArgumentStep, Find;
      var c := place[0];
      place := place[1..];
      var k := Find(cfg.options, c);
      if c == ':' || (c == '-' && place != "") || k == |cfg.options| {
        if c == '-' && place == "" {
          return -1;
        }
        if place == "" {
          optind := optind + 1;
        }
        optopt := c as int;
        return BADCH;
      }
      var after := cfg.options[k + 1..];
      if cfg.longOptions.Some? && c == 'W' && after != "" && after[0] == ';' {
        ret := ParseWord(nargv, cfg);
      } else {
        ret := ParseArgument(nargv, cfg, c, after);
      }
    }

    /** Lines 399-476 of getopt_internal: the option at `place`. */
    method ParseOption(nargv: array<string>, cfg: Config) returns (ret: int)
      requires cfg.Valid() && place != "" && optind < nargv.Length && optarg == None
      modifies this`optind, this`place, this`optarg, this`optopt, this`longIndex, this`cells
      ensures var r := OptionStep(cfg, nargv[..], old(optind), old(place));
              ret == r.ret && Does(r)
    {
      hide LongStep, ShortStep, Find;
      if cfg.longOptions.Some? && |place| < |nargv[optind]| && (place[0] == '-' || cfg.longOnly) {
        var dashes := place[0] == '-';
        if dashes {
          place := place[1..];
        }
        var shortToo := !dashes && place[0] != ':' && Find(cfg.options, place[0]) < |cfg.options|;
        LongProgress(cfg, nargv[..], optind, place, shortToo);
        LongUnknown(cfg, nargv[..], optind, place, shortToo);
        ret := ParseLongOptions(nargv, cfg, shortToo);
        if ret != -1 {
          place := "";
          return;
        }
      }
      ret := ParseLetter(nargv, cfg);
    }

    ghost predicate InProgress(nargv: array<string>, cfg: Config)
      reads this, nargv
    {
      && nargv.Length == |orig| > 0 && cfg.Valid() && Inside(cfg, orig, optind, place)
      && Layout(cfg, nargv[..], optind, nonoptStart, nonoptEnd, opts, operands)
      && 1 <= optind <= |orig| && nonoptEnd <= optind && (nonoptStart == -1 ==> nonoptEnd == -1)
      && SameTail(nargv[..], orig, optind) && nargv[0] == orig[0]
      && Balanced(cfg, orig, optind, place, opts, operands, reports)
      && (nonoptStart != -1 ==> cfg.permute && !cfg.allArgs)
      && (place != "" && nonoptStart != -1 ==> nonoptEnd != -1)
      && (place == "" && nonoptEnd != -1 ==> nonoptEnd < optind)
    }

    constructor (nargv: array<string>, ghost cfg: Config)
      requires nargv.Length > 0 && cfg.Valid()
      ensures InProgress(nargv, cfg) && orig == nargv[..] && reports == [] && cells == map[]
    {
      optind, place, optarg, optopt := 1, "", None, BADCH;
      longIndex, cells := None, map[];
      nonoptStart, nonoptEnd := -1, -1;
      orig, opts, operands, reports := nargv[..], [], [], [];
    }

    /** The end of the vector, or "--": move the skipped operands behind the options. */
    method Finish(nargv: array<string>, ghost cfg: Config, ghost p: Plan)
      requires Layout(cfg, nargv[..], optind, nonoptStart, nonoptEnd, p.opts, p.operands)
      requires nonoptEnd != -1 ==> nonoptEnd < optind
      requires nargv[optind..] == p.rest
      modifies nargv, this`optind, this`nonoptStart, this`nonoptEnd
      ensures Partitioned(nargv[..], optind, old(nargv[0]), p)
    {
      hide Partitioned, Exchanged;
      ghost var end := optind;
      if nonoptEnd != -1 {
        ExchangeSettles(cfg, nargv[..], optind, nonoptStart, nonoptEnd, p.opts, p.operands);
        PermuteArgs(nargv, nonoptStart, nonoptEnd, optind);
        assert nargv[end..] == p.rest;
        optind := optind - (nonoptEnd - nonoptStart);
      } else if nonoptStart != -1 {
        optind := nonoptStart;
      }
      PartitionFromSettled(nargv[..], optind, end, nargv[0], p);
      nonoptStart, nonoptEnd := -1, -1;
    }
  
    /** Lines 355-372: skip an operand, first moving the options found since the last ones before them. */
    method SkipOperand(nargv: array<string>, cfg: Config)
      requires InProgress(nargv, cfg) && place == "" && optind < nargv.Length
      requires IsOperand(cfg, nargv[optind]) && cfg.permute && !cfg.allArgs
      modifies nargv, this`optind, this`nonoptStart, this`nonoptEnd, this`operands
      ensures InProgress(nargv, cfg) && optind == old(optind) + 1 && nonoptEnd == -1
    {
      hide Exchanged, IsOperand, Balanced, Settled, Layout;
      LayoutRange(cfg, nargv[..], optind, nonoptStart, nonoptEnd, opts, operands);
      assert nargv[optind] == orig[optind];
      BalancedOperand(cfg, orig, optind, opts, operands, reports);
      if nonoptStart == -1 {
        LayoutNone(cfg, nargv[..], optind, opts, operands);
        nonoptStart := optind;
      } else if nonoptEnd != -1 {
        ExchangeSettles(cfg, nargv[..], optind, nonoptStart, nonoptEnd, opts, operands);
        PermuteArgs(nargv, nonoptStart, nonoptEnd, optind);
        nonoptStart := optind - (nonoptEnd - nonoptStart);
        nonoptEnd := -1;
      } else {
        LayoutOpen(cfg, nargv[..], optind, nonoptStart, opts, operands);
      }
      LayoutSkip(cfg, nargv[..], optind, nonoptStart, opts, operands);
      optind := optind + 1;
      operands := operands + [orig[optind - 1]];
    }

    /** Lines 347-354: report an operand as the argument of option 1. */
    method TakeInOrder(nargv: array<string>, cfg: Config) returns (ret: int)
      requires InProgress(nargv, cfg) && place == "" && optind < nargv.Length
      requires IsOperand(cfg, nargv[optind]) && cfg.allArgs
      modifies this
      ensures orig == old(orig) && ret != -1 && InProgress(nargv, cfg) && Reported(ret)
      ensures reports[|old(reports)|] == Gives(INORDER, Some(orig[old(optind)]), old(optind) + 1, "")
    {
      hide IsOperand, Balanced;
      BalancedInOrder(cfg, orig, optind, opts, operands, reports);
      ghost var word := nargv[optind];
      assert word == orig[optind];
      assert nargv[1..optind + 1] == nargv[1..optind] + [word];
      optarg := Some(nargv[optind]);
      optind := optind + 1;
      opts := opts + [word];
      reports := reports + [Report(INORDER, optind, "").(optarg := Some(word))];
      return INORDER;
    }

    /** Lines 376-396: open an option word, or end the scan at "--". */
    method OpenWord(nargv: array<string>, cfg: Config) returns (ended: bool)
      requires InProgress(nargv, cfg) && place == "" && optind < nargv.Length && !IsOperand(cfg, nargv[optind])
      modifies nargv, this`optind, this`place, this`nonoptStart, this`nonoptEnd
      ensures !ended ==> InProgress(nargv, cfg) && place != "" && optind == old(optind)
      ensures !ended ==> orig[optind] != "" && orig[optind] != "--" && place == OptionText(orig[optind])
      ensures ended ==> Ended(nargv, cfg)
    {
      hide Balanced, Partitioned, Layout, IsOperand, Inside;
      ghost var word := orig[optind];
      assert nargv[optind] == word;
      OpenInside(cfg, orig, optind);
      BalancedAtEnd(cfg, orig, optind, place, opts, operands, reports);
      if word != "--" {
        BalancedOpen(cfg, orig, optind, opts, operands, reports);
      }
      if nonoptStart != -1 && nonoptEnd == -1 {
        LayoutClose(cfg, nargv[..], optind, nonoptStart, opts, operands);
        nonoptEnd := optind;
      }
      if nargv[optind] == "--" {
        LayoutAdvance(cfg, nargv[..], optind, optind + 1, nonoptStart, nonoptEnd, opts, operands);
        assert nargv[..][optind..optind + 1] == ["--"];
        optind := optind + 1;
        TailSlice(nargv[..], orig, optind);
        Finish(nargv, cfg, Scan(cfg, orig));
        return true;
      }
      place := OptionText(nargv[optind]);
      return false;
    }

    /** The option found at `place`, and the ghost record of it. */
    method TakeOption(nargv: array<string>, cfg: Config) returns (ret: int)
      requires InProgress(nargv, cfg) && place != "" && optarg == None
      modifies this
      ensures orig == old(orig) && nonoptStart == old(nonoptStart) && nonoptEnd == old(nonoptEnd)
      ensures Dangling(cfg, old(place)) <==> ret == -1
      ensures ret == -1 ==> optind == old(optind) && reports == old(reports) && opts == old(opts) && operands == old(operands)
      ensures ret == -1 ==> cells == old(cells)
      ensures ret != -1 ==> InProgress(nargv, cfg) && Reported(ret)
      ensures ret != -1 ==> old(optind) < |orig| && reports[|old(reports)|] == OptionStep(cfg, orig, old(optind), old(place))
    {
      hide OptionStep, Balanced, IsOperand, Dangling, Layout;
      ghost var r := OptionStep(cfg, orig, optind, place);
      StepLocal(cfg, nargv[..], orig, optind, place);
      StepProgress(cfg, orig, optind, place);
      ghost var was := optind;
      if !Dangling(cfg, place) {
        BalancedStep(cfg, orig, optind, place, opts, operands, reports);
        LayoutAdvance(cfg, nargv[..], optind, r.optind, nonoptStart, nonoptEnd, opts, operands);
      } else {
        DanglingStep(cfg, orig, optind, place);
      }
      ret := ParseOption(nargv, cfg);
      if ret != -1 {
        assert nargv[..][was..optind] == orig[was..optind];
        opts := opts + orig[was..r.optind];
        reports := reports + [r];
      }
    }

    /** A call that returned `ret` added one report, and did what it says. */
    twostate predicate Reported(ret: int)
      reads this
    {
      && |reports| == |old(reports)| + 1 && old(reports) <= reports
      && reports[|old(reports)|].ret == ret && Does(reports[|old(reports)|])
    }

    /** The words are partitioned unless the scan was interrupted, and all options were reported. */
    ghost predicate Ended(nargv: array<string>, cfg: Config)
      reads this, nargv
    {
      && nargv.Length == |orig| > 0 && cfg.Valid() && reports == Scan(cfg, orig).reports
      && (Partitioned(nargv[..], optind, orig[0], Scan(cfg, orig)) <==> !Scan(cfg, orig).interrupted)
    }

    /** Nothing that a caller can see has changed but optind. */
    twostate predicate OnlyMoved()
      reads this
    {
      && orig == old(orig) && reports == old(reports)
      && optopt == old(optopt) && longIndex == old(longIndex) && cells == old(cells)
    }

    lemma Position(nargv: array<string>, cfg: Config)
      requires InProgress(nargv, cfg)
      ensures nargv.Length == |orig| && optind <= |orig| && cfg.Valid() && Inside(cfg, orig, optind, place)
      ensures optind < |orig| ==> nargv[optind] == orig[optind]
    {
    }

    /** Lines 324-343: no word is left. */
    method EndOfWords(nargv: array<string>, cfg: Config)
      requires InProgress(nargv, cfg) && place == "" && optind == nargv.Length
      modifies nargv, this`optind, this`nonoptStart, this`nonoptEnd
      ensures Ended(nargv, cfg)
    {
      hide Balanced, Partitioned, IsOperand, Layout, Scan, Inside;
      BalancedAtEnd(cfg, orig, optind, place, opts, operands, reports);
      Finish(nargv, cfg, Scan(cfg, orig));
    }

    /** Lines 355-372: an operand is skipped, or ends the scan. */
    method PassOperand(nargv: array<string>, cfg: Config) returns (over: bool)
      requires InProgress(nargv, cfg) && place == "" && optind < nargv.Length
      requires IsOperand(cfg, nargv[optind]) && !cfg.allArgs
      modifies nargv, this`optind, this`nonoptStart, this`nonoptEnd, this`operands
      ensures over ==> Ended(nargv, cfg)
      ensures !over ==> cfg.permute && InProgress(nargv, cfg) && optind == old(optind) + 1
    {
      hide Balanced, Partitioned, IsOperand, Layout, Scan, Inside;
      if !cfg.permute {
        assert nargv[optind] == orig[optind];
        BalancedAtEnd(cfg, orig, optind, place, opts, operands, reports);
        TailSlice(nargv[..], orig, optind);
        LayoutNone(cfg, nargv[..], optind, opts, operands);
        PartitionFromSettled(nargv[..], optind, optind, orig[0], Scan(cfg, orig));
        return true;
      }
      SkipOperand(nargv, cfg);
      return false;
    }

    /** Lines 324-397: fetch words until one has options, or the scan is over. */
    method FetchWord(nargv: array<string>, cfg: Config) returns (over: bool)
      requires InProgress(nargv, cfg) && optarg == None
      modifies nargv, this`optind, this`place, this`nonoptStart, this`nonoptEnd, this`operands
      ensures OnlyMoved() && optarg == None
      ensures over ==> Ended(nargv, cfg)
      ensures !over ==> InProgress(nargv, cfg) && Arrived(cfg, orig, old(optind), old(place), optind, place)
      ensures !over && place == "" ==> optind < nargv.Length && IsOperand(cfg, nargv[optind]) && cfg.allArgs
    {
      hide IsOperand, Arrived, Ended, InProgress, Scan;
      Position(nargv, cfg);
      StartsHere(cfg, orig, optind, place);
      while place == ""
        invariant InProgress(nargv, cfg) && OnlyMoved() && optarg == None
        invariant Arrived(cfg, orig, old(optind), old(place), optind, place)
        decreases nargv.Length - optind, place == ""
      {
        Position(nargv, cfg);
        if optind >= nargv.Length {
          EndOfWords(nargv, cfg);
          return true;
        }
        if IsOperand(cfg, nargv[optind]) {
          if cfg.allArgs {
            return false;
          }
          if cfg.permute {
            ArrivedSkips(cfg, orig, old(optind), old(place), optind);
          }
          over := PassOperand(nargv, cfg);
        } else {
          over := OpenWord(nargv, cfg);
          if !over {
            ArrivedOpens(cfg, orig, old(optind), old(place), optind);
          }
        }
        if over {
          return;
        }
      }
      return false;
    }

    /**
     One call of getopt_internal.  Until it returns -1 it reports what the next words mean;
     when it does, the words are partitioned unless the scan was interrupted.
     */
    method GetoptInternal(nargv: array<string>, cfg: Config) returns (ret: int)
      requires InProgress(nargv, cfg)
      modifies this, nargv
      ensures orig == old(orig)
      ensures ret != -1 ==> InProgress(nargv, cfg) && Reported(ret)
      ensures ret != -1 ==> CallMeans(cfg, orig, old(optind), old(place), reports[|old(reports)|])
      ensures ret == -1 ==> Ended(nargv, cfg) && reports == old(reports) && cells == old(cells)
    {
      hide Balanced, Partitioned, IsOperand, Dangling, Layout, Arrived, CallMeans, OptionStep, Scan;
      optarg := None;
      var over := FetchWord(nargv, cfg);
      if over {
        return -1;
      }
      if place == "" {
        assert nargv[optind] == orig[optind];
        ArrivedOperand(cfg, orig, old(optind), old(place), optind);
        ret := TakeInOrder(nargv, cfg);
        return;
      }
      BalancedAtEnd(cfg, orig, optind, place, opts, operands, reports);
      InsideIsOption(cfg, orig, optind, place);
      ghost var was, at := optind, place;
      ret := TakeOption(nargv, cfg);
      if ret != -1 {
        ArrivedOption(cfg, orig, old(optind), old(place), was, at);
      } else {
        assert nargv[optind] == orig[optind];
        InterruptedUnsorted(cfg, nargv[..], optind, nonoptStart, nonoptEnd, opts, operands, orig[0], Scan(cfg, orig));
      }
    }
  }

  lemma StartsHere(cfg: Config, argv: seq<string>, i: nat, place: string)
    requires i <= |argv| && Inside(cfg, argv, i, place)
    ensures Arrived(cfg, argv, i, place, i, place)
  {
  }

  /** The flag cells after some calls. */
  function Cells(reports: seq<Step>): map<int, int> {
    if reports == [] then map[]
    else
      var before, last := Cells(reports[..|reports| - 1]), reports[|reports| - 1];
      if last.stored.Some? then before[last.stored.value.0 := last.stored.value.1] else before
  }

  lemma CellsAfter(before: seq<Step>, after: seq<Step>)
    requires |after| == |before| + 1 && before <= after
    ensures var last := after[|before|];
            Cells(after) == if last.stored.Some? then Cells(before)[last.stored.value.0 := last.stored.value.1] else Cells(before)
  {
    assert after[..|before|] == before;
  }

  /**
   The loop of a caller, calling until -1: it sees what the words mean, and the words end up
   stably partitioned exactly when no word that ends in a dash is reached.
   */
  method ScanAll(nargv: array<string>, cfg: Config) returns (scanner: Scanner, rets: seq<int>, args: seq<Option<string>>)
    requires nargv.Length > 0 && cfg.Valid()
    modifies nargv
    ensures var p := Scan(cfg, old(nargv[..]));
            && |rets| == |args| == |p.reports|
            && (forall i | 0 <= i < |rets| :: rets[i] == p.reports[i].ret && args[i] == p.reports[i].optarg)
            && RunMeans(cfg, old(nargv[..]), 1, "", p.reports) && scanner.cells == Cells(p.reports)
            && (Partitioned(nargv[..], scanner.optind, old(nargv[0]), p)
                <==> !(PlainDash(cfg) && DashReached(cfg, old(nargv[..]), 1)))
  {
    hide Partitioned, Scan, Balanced, Layout, Inside, PlainDash, DashReached, RunMeans, Cells, CallMeans;
    InterruptedExactly(cfg, nargv[..]);
    RunMeaning(cfg, nargv[..]);
    scanner := new Scanner(nargv, cfg);
    rets, args := [], [];
    NoCells();
    while true
      invariant scanner.InProgress(nargv, cfg) && scanner.orig == old(nargv[..])
      invariant fresh(scanner) && scanner.cells == Cells(scanner.reports)
      invariant |rets| == |args| == |scanner.reports|
      invariant forall i | 0 <= i < |rets| :: rets[i] == scanner.reports[i].ret && args[i] == scanner.reports[i].optarg
      decreases |Scan(cfg, scanner.orig).reports| - |scanner.reports|
    {
      ReportsLeft(cfg, scanner.orig, scanner.optind, scanner.place, scanner.opts, scanner.operands, scanner.reports);
      ghost var before := scanner.reports;
      var c := scanner.GetoptInternal(nargv, cfg);
      if c == -1 {
        return;
      }
      CellsAfter(before, scanner.reports);
      rets, args := rets + [c], args + [scanner.optarg];
    }
  }

  lemma NoCells()
    ensures Cells([]) == map[]
  {
  }

  /** The reports of a whole scan are what the words mean. */
  lemma RunMeaning(cfg: Config, argv: seq<string>)
    requires cfg.Valid() && |argv| >= 1
    ensures RunMeans(cfg, argv, 1, "", Scan(cfg, argv).reports)
  {
    hide RunMeans, Remaining;
    ReportsMean(cfg, argv, 1, "");
  }

  /** The source stops at "-a-" when '-' is no option, with the operand before it not moved. */
  lemma InterruptionExample()
    ensures var cfg := MakeConfig("a", None, true, false, false);
            Scan(cfg, ["prog", "file", "-a-"]).interrupted
  {
    var cfg := MakeConfig("a", None, true, false, false);
    var argv := ["prog", "file", "-a-"];
    assert Find("a", '-') == 1 && Find("a", 'a') == 0;
    assert "-a-"[1..] == "a-" && "a-"[1..] == "-";
    var r := OptionStep(cfg, argv, 2, "a-");
    assert r == Report('a' as int, 2, "-");
    assert OptionStep(cfg, argv, 2, "-").ret == -1;
    assert Remaining(cfg, argv, 2, "-").interrupted;
    assert Remaining(cfg, argv, 2, "a-").interrupted;
    assert Remaining(cfg, argv, 2, "").interrupted;
  }

  /** A long option that is not found leaves everything as it was. */
  lemma LongUnknown(cfg: Config, argv: seq<string>, optind: nat, place: string, shortToo: bool)
    requires cfg.Valid() && cfg.longOptions.Some?
    ensures var r := LongStep(cfg, argv, optind, place, shortToo);
            r.ret == -1 ==> r == Report(-1, optind, place)
  {
  }
}
