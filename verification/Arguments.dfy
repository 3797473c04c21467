/** The two passes over the command line: commands are blanked in place before options are read. */
module Arguments {
  import opened Wrappers

  /** One call of a parser. */
  datatype Visit = Visit(key: string, value: Option<string>)

  /** `s[i]` of a C string: the terminator past the end. */
  function At(s: string, i: nat): char { if i < |s| then s[i] else '\0' }

  predicate IsDigit(c: char) { '0' <= c <= '9' }

  /** `isNegativeNumber`: such a string is a value, not the name of the next option. */
  predicate IsNegativeNumber(s: string) {
    At(s, 0) == '-' && (IsDigit(At(s, 1)) || (At(s, 1) == '.' && IsDigit(At(s, 2))))
  }

  function Lower(c: char): char { if 'A' <= c <= 'Z' then c - 'A' + 'a' else c }

  predicate EqualsIgnCase(a: string, b: string) {
    |a| == |b| && forall i :: 0 <= i < |a| ==> Lower(a[i]) == Lower(b[i])
  }

  /** The next argument is read as the name of an option rather than as the value of `key`. */
  predicate LooksLikeOption(key: string, next: string) {
    At(next, 0) == '-' && At(next, 1) != '\0' && !EqualsIgnCase(key, "--separator-string") && !IsNegativeNumber(next)
  }

  /** `rest[0]` is a key that takes the next argument as its value. */
  predicate TakesValue(rest: seq<string>)
    requires rest != []
  {
    |rest| > 1 && !LooksLikeOption(rest[0], rest[1])
  }

  /** The calls made for the arguments `rest`, up to an argument that is no option. */
  function Visits(rest: seq<string>): seq<Visit> {
    if rest == [] then []
    else if rest[0] == "" then Visits(rest[1..])
    else if rest[0][0] != '-' then []
    else if TakesValue(rest) then [Visit(rest[0], Some(rest[1]))] + Visits(rest[2..])
    else [Visit(rest[0], None)] + Visits(rest[1..])
  }

  /** No key position holds an argument that does not start with `-`. */
  predicate AllOptions(rest: seq<string>) {
    if rest == [] then true
    else if rest[0] == "" then AllOptions(rest[1..])
    else rest[0][0] == '-' && AllOptions(if TakesValue(rest) then rest[2..] else rest[1..])
  }

  /** The arguments after the command pass: every command and its value is emptied. */
  function Blanked(rest: seq<string>, command: string -> bool): (r: seq<string>)
    ensures |r| == |rest|
  {
    if rest == [] then []
    else if rest[0] == "" then [""] + Blanked(rest[1..], command)
    else if TakesValue(rest) then
      (if command(rest[0]) then ["", ""] else [rest[0], rest[1]]) + Blanked(rest[2..], command)
    else
      [if command(rest[0]) then "" else rest[0]] + Blanked(rest[1..], command)
  }

  /**
    What the option pass is to see: the keys of the command pass that are no
    commands, in the same order and with the same values.  The one exception: a
    key without a value gets an empty one when the argument after it was a
    command, because that argument is empty by then.
   */
  function Remaining(rest: seq<string>, command: string -> bool): seq<Visit> {
    if rest == [] then []
    else if rest[0] == "" then Remaining(rest[1..], command)
    else if TakesValue(rest) then
      (if command(rest[0]) then [] else [Visit(rest[0], Some(rest[1]))]) + Remaining(rest[2..], command)
    else
      (if command(rest[0]) then []
       else [Visit(rest[0], if |rest| > 1 && command(rest[1]) then Some("") else None)]) + Remaining(rest[1..], command)
  }

  // ---- which argument is a value -----------------------------------------------------------------

  /**
    The rule in characters.  The next argument is a value unless it begins with
    `-` and has a second character; even then it is one if a digit, or a point
    and a digit, follows the minus, or if the key is `--separator-string` in any case.
   */
  lemma TakesValueIff(rest: seq<string>)
    requires rest != []
    ensures TakesValue(rest) <==>
            && |rest| > 1
            && var key, next := rest[0], rest[1];
            || |next| < 2 || next[0] != '-' || next[1] == '\0'
            || '0' <= next[1] <= '9'
            || (next[1] == '.' && |next| > 2 && '0' <= next[2] <= '9')
            || (|key| == 18 && forall i :: 0 <= i < 18 ==>
                  key[i] == "--separator-string"[i] || key[i] == "--SEPARATOR-STRING"[i])
  {
    if |rest| > 1 {
      IgnoringCase(rest[0]);
    }
  }

  lemma IgnoringCase(key: string)
    ensures EqualsIgnCase(key, "--separator-string") <==>
            && |key| == 18
            && forall i :: 0 <= i < 18 ==> key[i] == "--separator-string"[i] || key[i] == "--SEPARATOR-STRING"[i]
  {
    if |key| == 18 {
      forall i | 0 <= i < 18
        ensures Lower(key[i]) == Lower("--separator-string"[i]) <==>
                key[i] == "--separator-string"[i] || key[i] == "--SEPARATOR-STRING"[i]
      {
      }
    }
  }

  /** Every call is made for a key, an argument that begins with `-`, and takes the next argument or nothing. */
  lemma {:induction false} CallAt(rest: seq<string>, k: nat) returns (p: nat)
    requires k < |Visits(rest)|
    ensures p < |rest| && rest[p] != "" && rest[p][0] == '-'
    ensures Visits(rest)[k] == Visit(rest[p], if TakesValue(rest[p..]) then Some(rest[p + 1]) else None)
    ensures k == 0 ==> forall q: nat | q < p :: rest[q] == ""
    decreases |rest|
  {
    hide LooksLikeOption;
    if rest[0] == "" {
      p := CallAt(rest[1..], k);
      assert rest[1..][p..] == rest[p + 1..];
      p := p + 1;
    } else if k == 0 {
      p := 0;
      assert rest[0..] == rest;
    } else {
      var n := if TakesValue(rest) then 2 else 1;
      p := CallAt(rest[n..], k - 1);
      assert rest[n..][p..] == rest[p + n..];
      p := p + n;
    }
  }

  /** The keys and the values of the calls, without empty values. */
  function Passed(visits: seq<Visit>): seq<string> {
    if visits == [] then []
    else
      [visits[0].key] + (if visits[0].value.Some? && visits[0].value.value != "" then [visits[0].value.value] else [])
      + Passed(visits[1..])
  }

  function NonEmpty(rest: seq<string>): seq<string> {
    if rest == [] then [] else (if rest[0] == "" then [] else [rest[0]]) + NonEmpty(rest[1..])
  }

  /**
    No argument is lost, repeated or moved: the calls pass on exactly the
    non-empty arguments, in order, up to the first key that does not begin with
    `-`, or all of them.
   */
  lemma {:induction false} NothingIsLost(rest: seq<string>) returns (p: nat)
    ensures p <= |rest| && Passed(Visits(rest)) == NonEmpty(rest[..p])
    ensures AllOptions(rest) <==> p == |rest|
    ensures p < |rest| ==> rest[p] != "" && rest[p][0] != '-'
    decreases |rest|
  {
    hide LooksLikeOption, TakesValue, Passed, NonEmpty, Visits, AllOptions;
    if rest == [] || (rest[0] != "" && rest[0][0] != '-') {
      p := 0;
      NothingPassed(rest);
    } else if rest[0] == "" {
      p := NothingIsLost(rest[1..]);
      p := p + 1;
      SkipFirst(rest, OptionParser(_ => false));
      FirstArgument(rest, p);
    } else {
      var n := if TakesValue(rest) then 2 else 1;
      FirstVisit(rest, OptionParser(_ => false));
      p := NothingIsLost(rest[n..]);
      p := p + n;
      FirstPassed(Visits(rest)[0], Visits(rest[n..]));
      FirstArguments(rest, p);
    }
  }

  lemma NothingPassed(rest: seq<string>)
    requires rest == [] || (rest[0] != "" && rest[0][0] != '-')
    ensures Passed(Visits(rest)) == NonEmpty(rest[..0]) && (AllOptions(rest) <==> rest == [])
  {
  }

  lemma FirstArguments(rest: seq<string>, p: nat)
    requires rest != [] && rest[0] != "" && p <= |rest| && (if TakesValue(rest) then 2 else 1) <= p
    ensures NonEmpty(rest[..p])
            == if TakesValue(rest) then Passed([Visit(rest[0], Some(rest[1]))]) + NonEmpty(rest[2..][..p - 2])
               else Passed([Visit(rest[0], None)]) + NonEmpty(rest[1..][..p - 1])
  {
    hide LooksLikeOption, NonEmpty;
    FirstArgument(rest, p);
    if TakesValue(rest) {
      FirstArgument(rest[1..], p - 1);
      assert rest[1..][1..] == rest[2..];
      FirstPassed(Visit(rest[0], Some(rest[1])), []);
    } else {
      FirstPassed(Visit(rest[0], None), []);
    }
  }

  lemma FirstPassed(visit: Visit, visits: seq<Visit>)
    ensures Passed([visit] + visits) == Passed([visit]) + Passed(visits)
    ensures Passed([visit])
            == if visit.value.Some? && visit.value.value != "" then [visit.key, visit.value.value] else [visit.key]
  {
    assert ([visit] + visits)[1..] == visits;
    assert Passed([]) == [];
  }

  lemma FirstArgument(rest: seq<string>, p: nat)
    requires 1 <= p <= |rest|
    ensures NonEmpty(rest[..p]) == (if rest[0] == "" then [] else [rest[0]]) + NonEmpty(rest[1..][..p - 1])
  {
    assert rest[..p][1..] == rest[1..][..p - 1];
  }

  /** Whether the next argument is taken depends on the key and on that argument alone. */
  lemma TakesValueLocal(a: seq<string>, b: seq<string>)
    requires |a| > 1 && |b| > 1 && a[0] == b[0] && a[1] == b[1]
    ensures TakesValue(a) == TakesValue(b)
  {
  }

  /**
    The passes stay aligned.  If the command pass meets only options, the option
    pass over the blanked arguments meets only options too, and sees exactly
    `Remaining`.
   */
  lemma {:induction false} PassesAligned(rest: seq<string>, command: string -> bool)
    requires AllOptions(rest)
    ensures AllOptions(Blanked(rest, command))
    ensures Visits(Blanked(rest, command)) == Remaining(rest, command)
  {
    hide LooksLikeOption;
    if rest != [] {
      var b := Blanked(rest, command);
      if rest[0] == "" {
        PassesAligned(rest[1..], command);
        assert b[1..] == Blanked(rest[1..], command);
      } else if TakesValue(rest) {
        PassesAligned(rest[2..], command);
        assert b[2..] == Blanked(rest[2..], command);
        if command(rest[0]) {
          assert b[1..][1..] == b[2..];
        } else {
          TakesValueLocal(rest, b);
        }
      } else {
        PassesAligned(rest[1..], command);
        assert b[1..] == Blanked(rest[1..], command);
        if !command(rest[0]) && |rest| > 1 {
          NextAfterBlanking(rest, command);
        }
      }
    }
  }

  /** The next argument of a key that takes none is a key itself: kept, or emptied if it is a command. */
  lemma NextAfterBlanking(rest: seq<string>, command: string -> bool)
    requires |rest| > 1 && rest[0] != "" && !TakesValue(rest) && !command(rest[0]) && rest[0][0] == '-'
    ensures var b := Blanked(rest, command);
            && |b| > 1 && b[0] == rest[0]
            && b[1] == (if command(rest[1]) then "" else rest[1])
            && TakesValue(b) == command(rest[1])
            && b[2..] == b[1..][1..]
  {
    var b := Blanked(rest, command);
    assert rest[1] != "";
    assert b[1] == Blanked(rest[1..], command)[0];
    if !command(rest[1]) {
      TakesValueLocal(rest, b);
    }
  }

  function Without(visits: seq<Visit>, command: string -> bool): seq<Visit> {
    if visits == [] then []
    else (if command(visits[0].key) then [] else [visits[0]]) + Without(visits[1..], command)
  }

  /** Commands and their values, and nothing else, are kept from the option pass. */
  lemma {:induction false} RemainingIsTheRest(rest: seq<string>, command: string -> bool)
    requires AllOptions(rest)
    ensures forall v <- Remaining(rest, command) :: !command(v.key)
    ensures Passed(Remaining(rest, command)) == Passed(Without(Visits(rest), command))
    decreases |rest|
  {
    hide LooksLikeOption, Passed, Without;
    if rest == [] {
      NothingWithout(command);
    } else if rest[0] == "" {
      RemainingIsTheRest(rest[1..], command);
    } else if TakesValue(rest) {
      RemainingIsTheRest(rest[2..], command);
      FirstRemaining(Visit(rest[0], Some(rest[1])), Visit(rest[0], Some(rest[1])), Visits(rest[2..]),
                     Remaining(rest[2..], command), command);
    } else {
      RemainingIsTheRest(rest[1..], command);
      FirstRemaining(Visit(rest[0], None), Visit(rest[0], if |rest| > 1 && command(rest[1]) then Some("") else None),
                     Visits(rest[1..]), Remaining(rest[1..], command), command);
    }
  }

  lemma NothingWithout(command: string -> bool)
    ensures Without([], command) == []
  {
  }

  lemma FirstRemaining(visit: Visit, seen: Visit, visits: seq<Visit>, remaining: seq<Visit>, command: string -> bool)
    requires seen == visit || (seen.key == visit.key && visit.value.None? && seen.value == Some(""))
    requires Passed(remaining) == Passed(Without(visits, command))
    ensures Passed((if command(seen.key) then [] else [seen]) + remaining) == Passed(Without([visit] + visits, command))
  {
    hide Passed, Without;
    FirstPassed(visit, Without(visits, command));
    FirstPassed(seen, remaining);
    FirstWithout(visit, visits, command);
    assert [] + remaining == remaining;
  }

  lemma FirstWithout(visit: Visit, visits: seq<Visit>, command: string -> bool)
    ensures Without([visit] + visits, command)
            == if command(visit.key) then Without(visits, command) else [visit] + Without(visits, command)
  {
    assert ([visit] + visits)[1..] == visits;
  }

  // ---- the loop over argv ---------------------------------------------------------------------

  datatype Status = Completed | NotAnOption | Exited

  /**
    The parser a pass runs with.  `exits` says of the calls so far whether the
    last of them ends the process; what the earlier ones left behind may matter.
   */
  datatype Parser = CommandParser(command: string -> bool, exits: seq<Visit> -> bool)
                  | OptionParser(exits: seq<Visit> -> bool)

  /** The arguments a pass leaves behind. */
  function After(rest: seq<string>, parser: Parser): seq<string> {
    match parser
    case CommandParser(command, _) => Blanked(rest, command)
    case OptionParser(_) => rest
  }

  /** What is left behind of a visited key and of its value. */
  function Left(key: string, parser: Parser, arg: string): string {
    if parser.CommandParser? && parser.command(key) then "" else arg
  }

  /** No call of the pass ends the process. */
  predicate NoExit(visits: seq<Visit>, parser: Parser) {
    forall n: nat | 0 < n <= |visits| :: !parser.exits(visits[..n])
  }

  /** The call through `parser`, with the blanking at the end of `parseCommand`. */
  method Parse(argv: array<string>, i: nat, hasValue: bool, parser: Parser, visits: seq<Visit>)
    returns (exited: bool, visit: Visit)
    requires i < argv.Length && (hasValue ==> i + 1 < argv.Length)
    modifies argv
    ensures visit == Visit(old(argv[i]), if hasValue then Some(old(argv[i + 1])) else None)
    ensures exited == parser.exits(visits + [visit])
    ensures exited ==> argv[..] == old(argv[..])
    ensures !exited ==>
              argv[..] == (if hasValue
                           then old(argv[..])[i := Left(old(argv[i]), parser, old(argv[i]))]
                                             [i + 1 := Left(old(argv[i]), parser, old(argv[i + 1]))]
                           else old(argv[..])[i := Left(old(argv[i]), parser, old(argv[i]))])
  {
    var v := Visit(argv[i], if hasValue then Some(argv[i + 1]) else None);
    visit := v;
    exited := parser.exits(visits + [v]);
    if !exited && parser.CommandParser? && parser.command(argv[i]) {
      argv[i] := "";
      if hasValue {
        argv[i + 1] := "";
      }
    }
  }

  /** After `n` arguments: what was visited and left behind, and what is still to come. */
  ghost predicate Midway(all: seq<string>, argv: seq<string>, n: nat, visits: seq<Visit>, parser: Parser)
    requires |argv| == |all| && 1 <= n <= |all|
  {
    && argv[n..] == all[n..] && argv[0] == all[0]
    && Visits(all[1..]) == visits + Visits(all[n..])
    && (AllOptions(all[1..]) <==> AllOptions(all[n..]))
    && After(all[1..], parser) == argv[1..n] + After(all[n..], parser)
    && NoExit(visits, parser)
  }

  /** The first call of a pass that starts at a key. */
  lemma FirstVisit(rest: seq<string>, parser: Parser)
    requires rest != [] && rest[0] != "" && rest[0][0] == '-'
    ensures var k := if TakesValue(rest) then 2 else 1;
            && Visits(rest) == [Visit(rest[0], if TakesValue(rest) then Some(rest[1]) else None)] + Visits(rest[k..])
            && AllOptions(rest) == AllOptions(rest[k..])
            && After(rest, parser)
               == (if TakesValue(rest) then [Left(rest[0], parser, rest[0]), Left(rest[0], parser, rest[1])]
                                       else [Left(rest[0], parser, rest[0])]) + After(rest[k..], parser)
  {
    hide LooksLikeOption;
    if TakesValue(rest) {
      assert rest == [rest[0], rest[1]] + rest[2..];
    } else {
      assert rest == [rest[0]] + rest[1..];
    }
  }

  lemma SkipEmpty(all: seq<string>, argv: seq<string>, i: nat, visits: seq<Visit>, parser: Parser)
    requires |argv| == |all| && 1 <= i < |all| && Midway(all, argv, i, visits, parser) && argv[i] == ""
    ensures Midway(all, argv, i + 1, visits, parser)
  {
    hide AllOptions, Visits, Blanked, NoExit, After;
    var rest := all[i..];
    assert rest[0] == argv[i..][0] == "";
    assert rest[1..] == all[i + 1..];
    SkipFirst(rest, parser);
    assert argv[i + 1..] == argv[i..][1..];
    assert argv[1..i + 1] == argv[1..i] + [""];
  }

  lemma SkipFirst(rest: seq<string>, parser: Parser)
    requires rest != [] && rest[0] == ""
    ensures Visits(rest) == Visits(rest[1..]) && AllOptions(rest) == AllOptions(rest[1..])
    ensures After(rest, parser) == [""] + After(rest[1..], parser)
  {
    assert rest == [""] + rest[1..];
  }

  /** One call of the parser, seen from the whole pass. */
  lemma VisitNext(all: seq<string>, before: seq<string>, after: seq<string>, i: nat, hasValue: bool,
                  visits: seq<Visit>, visit: Visit, exited: bool, parser: Parser)
    requires |before| == |after| == |all| && 1 <= i < |all| && Midway(all, before, i, visits, parser)
    requires before[i] != "" && before[i][0] == '-' && hasValue == TakesValue(all[i..])
    requires visit == Visit(before[i], if hasValue then Some(before[i + 1]) else None)
    requires exited == parser.exits(visits + [visit])
    requires !exited ==>
               after == (if hasValue then
                           before[i := Left(before[i], parser, before[i])]
                                 [i + 1 := Left(before[i], parser, before[i + 1])]
                         else before[i := Left(before[i], parser, before[i])])
    ensures exited ==> !NoExit(Visits(all[1..]), parser) && visits + [visit] <= Visits(all[1..])
    ensures !exited ==> Midway(all, after, if hasValue then i + 2 else i + 1, visits + [visit], parser)
  {
    hide AllOptions, Visits, Blanked, LooksLikeOption, NoExit, After, Left;
    var rest := all[i..];
    assert rest[0] == before[i..][0] == before[i];
    assert hasValue ==> |rest| > 1 && rest[1] == before[i..][1] == before[i + 1];
    FirstVisit(rest, parser);
    var k := if hasValue then 2 else 1;
    assert rest[k..] == all[i + k..];
    Shift(visits, visit, Visits(all[i + k..]));
    if exited {
      ExitSeen(visits, visit, Visits(all[i + k..]), parser);
    } else {
      NoExitSnoc(visits, visit, parser);
      var x := Left(before[i], parser, before[i]);
      var y := if hasValue then Left(before[i], parser, before[i + 1]) else x;
      Overwritten(before, after, i, hasValue, x, y);
      Regroup(before[1..i], if hasValue then [x, y] else [x], After(all[i + k..], parser));
      assert before[i..][k..] == before[i + k..];
    }
  }

  lemma Shift<T>(a: seq<T>, x: T, b: seq<T>)
    ensures a + ([x] + b) == (a + [x]) + b
  {
  }

  lemma Regroup<T>(a: seq<T>, b: seq<T>, c: seq<T>)
    ensures a + (b + c) == (a + b) + c
  {
  }

  lemma Overwritten(before: seq<string>, after: seq<string>, i: nat, hasValue: bool, x: string, y: string)
    requires |before| == |after| && 1 <= i < |before| && (hasValue ==> i + 1 < |before|)
    requires after == (if hasValue then before[i := x][i + 1 := y] else before[i := x])
    ensures var k := if hasValue then 2 else 1;
            && after[0] == before[0] && after[i + k..] == before[i + k..]
            && after[1..i + k] == before[1..i] + (if hasValue then [x, y] else [x])
  {
  }

  lemma ExitSeen(visits: seq<Visit>, visit: Visit, later: seq<Visit>, parser: Parser)
    requires parser.exits(visits + [visit])
    ensures !NoExit((visits + [visit]) + later, parser)
  {
    var all := (visits + [visit]) + later;
    assert all[..|visits| + 1] == visits + [visit];
  }

  lemma NoExitSnoc(visits: seq<Visit>, visit: Visit, parser: Parser)
    requires NoExit(visits, parser) && !parser.exits(visits + [visit])
    ensures NoExit(visits + [visit], parser)
  {
    var all := visits + [visit];
    forall n: nat | 0 < n <= |all| ensures !parser.exits(all[..n]) {
      if n <= |visits| {
        assert all[..n] == visits[..n];
      } else {
        assert all[..n] == all;
      }
    }
  }

  lemma AtEnd(all: seq<string>, argv: seq<string>, visits: seq<Visit>, parser: Parser)
    requires |argv| == |all| >= 1 && Midway(all, argv, |all|, visits, parser)
    ensures AllOptions(all[1..]) && NoExit(Visits(all[1..]), parser)
    ensures visits == Visits(all[1..]) && argv[1..] == After(all[1..], parser) && argv[0] == all[0]
  {
    assert all[|all|..] == [];
    assert argv[1..|all|] == argv[1..];
    assert visits + Visits([]) == visits;
    assert argv[1..] + After([], parser) == argv[1..];
  }

  lemma AtBegin(all: seq<string>, parser: Parser)
    requires |all| >= 1
    ensures Midway(all, all, 1, [], parser)
  {
    hide AllOptions, Visits, Blanked;
    assert [] + Visits(all[1..]) == Visits(all[1..]);
    assert all[1..1] + After(all[1..], parser) == After(all[1..], parser);
  }

  lemma KeptAhead(all: seq<string>, argv: seq<string>, i: nat, visits: seq<Visit>, parser: Parser)
    requires |argv| == |all| && 1 <= i < |all| && Midway(all, argv, i, visits, parser)
    ensures argv[i..] == all[i..]
  {
  }

  lemma NotOption(all: seq<string>, argv: seq<string>, i: nat, visits: seq<Visit>, parser: Parser)
    requires |argv| == |all| && 1 <= i < |all| && Midway(all, argv, i, visits, parser)
    requires argv[i] != "" && argv[i][0] != '-'
    ensures !AllOptions(all[1..]) && visits == Visits(all[1..]) && NoExit(visits, parser)
  {
    hide NoExit, Blanked;
    assert argv[i..][0] == all[i..][0];
    assert visits + [] == visits;
  }

  /** The calls up to the first one that ends the process. */
  predicate FirstExit(visits: seq<Visit>, all: seq<Visit>, parser: Parser) {
    visits != [] && visits <= all && parser.exits(visits) && NoExit(visits[..|visits| - 1], parser)
  }

  lemma ExitsHere(all: seq<string>, argv: seq<string>, i: nat, visits: seq<Visit>, visit: Visit, parser: Parser)
    requires |argv| == |all| && 1 <= i < |all| && Midway(all, argv, i, visits, parser)
    requires parser.exits(visits + [visit]) && visits + [visit] <= Visits(all[1..])
    ensures FirstExit(visits + [visit], Visits(all[1..]), parser)
  {
    hide AllOptions, Visits, Blanked, NoExit;
    assert (visits + [visit])[..|visits|] == visits;
  }

  /** Whether the pass makes all its calls or ends at one, the first call is the one for the first key. */
  lemma FirstCall(rest: seq<string>, visits: seq<Visit>, parser: Parser)
    requires visits == Visits(rest) || FirstExit(visits, Visits(rest), parser)
    ensures rest != [] && rest[0] != "" && rest[0][0] == '-' ==>
              && visits != []
              && visits[0] == Visit(rest[0], if TakesValue(rest) then Some(rest[1]) else None)
  {
    hide TakesValue, NoExit;
  }

  /** `parseArguments`. */
  method ParseArguments(argv: array<string>, parser: Parser) returns (status: Status, visits: seq<Visit>)
    requires argv.Length >= 1
    modifies argv
    ensures status == Completed <==> AllOptions(old(argv[1..])) && NoExit(Visits(old(argv[1..])), parser)
    ensures status == NotAnOption ==>
              !AllOptions(old(argv[1..])) && visits == Visits(old(argv[1..])) && NoExit(visits, parser)
    ensures status == Exited ==>
              !NoExit(Visits(old(argv[1..])), parser) && FirstExit(visits, Visits(old(argv[1..])), parser)
    ensures status == Completed ==>
              visits == Visits(old(argv[1..])) && argv[1..] == After(old(argv[1..]), parser) && argv[0] == old(argv[0])
    // the first call, if the first argument is a key
    ensures argv.Length > 1 && old(argv[1]) != "" && old(argv[1])[0] == '-' ==>
              && visits != []
              && visits[0] == Visit(old(argv[1]), if TakesValue(old(argv[1..])) then Some(old(argv[2])) else None)
  {
    hide AllOptions, Visits, Blanked, LooksLikeOption, NoExit, Midway, After, FirstExit;
    visits := [];
    ghost var all := argv[..];
    assert Midway(all, argv[..], 1, visits, parser) by { AtBegin(all, parser); }
    var i := 1;
    while i < argv.Length
      invariant 1 <= i <= argv.Length
      invariant Midway(all, argv[..], i, visits, parser)
    {
      if argv[i] == "" {
        SkipEmpty(all, argv[..], i, visits, parser);
        i := i + 1;
        continue;
      }
      if argv[i][0] != '-' {
        NotOption(all, argv[..], i, visits, parser);
        FirstCall(all[1..], visits, parser);
        return NotAnOption, visits;
      }
      KeptAhead(all, argv[..], i, visits, parser);
      var hasValue := !(i == argv.Length - 1 || LooksLikeOption(argv[i], argv[i + 1]));
      assert all[i..][0] == argv[i..][0] && (|all[i..]| > 1 ==> all[i..][1] == argv[i..][1]);
      ghost var before := argv[..];
      var exited, visit;
      exited, visit := Parse(argv, i, hasValue, parser, visits);
      VisitNext(all, before, argv[..], i, hasValue, visits, visit, exited, parser);
      if exited {
        ExitsHere(all, before, i, visits, visit, parser);
        FirstCall(all[1..], visits + [visit], parser);
        return Exited, visits + [visit];
      }
      visits := visits + [visit];
      i := if hasValue then i + 2 else i + 1;
    }
    AtEnd(all, argv[..], visits, parser);
    FirstCall(all[1..], visits, parser);
    status := Completed;
  }

  /**
    The two passes of `main`.  Once the command pass completes, the option pass
    cannot stop at an argument that is no option, and unless an option ends the
    process it makes exactly the calls of `Remaining`.  What ends the process in
    the option pass may depend on the calls of both passes.
   */
  method ParseTwice(argv: array<string>, command: string -> bool, commandExits: seq<Visit> -> bool,
                    optionExits: (seq<Visit>, seq<Visit>) -> bool)
      returns (first: Status, second: Status, commands: seq<Visit>, visits: seq<Visit>)
    requires argv.Length >= 1
    modifies argv
    ensures first == Completed <==>
              AllOptions(old(argv[1..])) && NoExit(Visits(old(argv[1..])), CommandParser(command, commandExits))
    ensures first != Completed ==> visits == [] && second == first
    ensures first == Completed ==> commands == Visits(old(argv[1..])) && second != NotAnOption
    ensures first == Completed ==>
              (second == Completed <==> NoExit(Remaining(old(argv[1..]), command), OptionPass(commands, optionExits)))
    ensures second == Completed ==> visits == Remaining(old(argv[1..]), command)
    ensures second == Completed ==> argv[1..] == Blanked(old(argv[1..]), command)
  {
    hide AllOptions, Visits, Blanked, LooksLikeOption, NoExit, Remaining, FirstExit;
    ghost var rest := argv[1..];
    first, commands := ParseArguments(argv, CommandParser(command, commandExits));
    if first != Completed {
      return first, first, commands, [];
    }
    PassesAligned(rest, command);
    second, visits := ParseArguments(argv, OptionPass(commands, optionExits));
  }

  /** The parser of the option pass, after the calls of the command pass. */
  function OptionPass(commands: seq<Visit>, exits: (seq<Visit>, seq<Visit>) -> bool): Parser {
    OptionParser(visits => exits(commands, visits))
  }
}
