/** The instance that holds the line cache and prints it. */
module LogoInstance {
  import opened LogoText
  import opened LogoLines
  import opened LogoReader
  import opened Screens
  import opened LogoPrinter

  class Instance {
    const wcwidth: int -> int
    const columns: nat  // of the terminal, 0 if there is none
    const watch: bool   // dynamicInterval > 0
    var options: Options
    var lines: seq<CachedLine>
    var nextLine: nat
    var rightOffset: nat
    var logoWidth: nat
    var logoHeight: nat
    var keysHeight: nat
    var screen: Screen

    constructor (options: Options, columns: nat, watch: bool, screen: Screen)
      ensures this.options == options && this.columns == columns && this.watch == watch && this.screen == screen
      ensures wcwidth == screen.wcwidth
      ensures Snapshot() == State([], 0, 0, options.position, 0, 0, 0)
    {
      this.options, this.columns, this.watch, this.screen := options, columns, watch, screen;
      wcwidth := screen.wcwidth;
      lines, nextLine, rightOffset, logoWidth, logoHeight, keysHeight := [], 0, 0, 0, 0, 0;
    }

    /** The fields that printing depends on. */
    function Snapshot(): State
      reads this
    {
      State(lines, nextLine, rightOffset, options.position, logoWidth, logoHeight, keysHeight)
    }

    /** `logoLineCacheClear`. */
    method ClearCache()
      modifies `lines, `nextLine, `rightOffset
      ensures Snapshot() == Cleared(old(Snapshot()))
    {
      lines, nextLine, rightOffset := [], 0, 0;
    }

    /** `logoLineCachePush`. */
    method PushLine(chars: text, width: nat)
      modifies `lines
      ensures lines == old(lines) + [Stored(options, chars, width)]
    {
      var stored := [];
      if width > 0 {
        stored := chars;
        if !options.pipe {
          stored := stored + RESET;
        }
      }
      lines := lines + [CachedLine(stored, width)];
    }

    method PushBlanks(n: nat)
      modifies `lines
      ensures lines == old(lines) + Blanks(n)
    {
      var i := 0;
      while i < n
        invariant 0 <= i <= n
        invariant lines == old(lines) + Blanks(i)
      {
        PushLine([], 0);
        i := i + 1;
      }
    }

    /** The outer loop of the parser: a cached line per row of a text that is not empty. */
    method PushRows(data: text, replace: bool) returns (maxLineWidth: nat, parsedHeight: nat)
      requires At(data, 0) != NUL
      modifies `lines
      ensures var rows := TextRows(Job(options, replace, wcwidth), data);
              && lines == old(lines) + rows
              && maxLineWidth == MaxWidth(rows, options.width)
              && parsedHeight == |rows| - 1
    {
      hide ScanRow, StartPen, Stored, Rows, FirstCarry, MaxWidth, AtBreak, AfterBreak, Midway;
      var j := Job(options, replace, wcwidth);
      var carry := FirstCarry(j);
      var rest := data;
      ghost var done := [];
      maxLineWidth, parsedHeight := options.width, 0;
      AtFirstRow(j, data);
      while true
        invariant lines == old(lines) + done
        invariant Midway(j, data, done, rest, carry, maxLineWidth)
        invariant parsedHeight == |done|
        decreases |rest|
      {
        var line, width, newCarry, after := ReadRow(j, rest, carry);
        PushLine(line, width);
        NextRow(j, data, done, rest, carry, maxLineWidth, line, width, newCarry, after);
        done := done + [Stored(j.options, line, width)];
        if width > maxLineWidth {
          maxLineWidth := width;
        }
        if !AtBreak(after) {
          break;
        }
        rest, carry, parsedHeight := AfterBreak(after), newCarry, parsedHeight + 1;
      }
    }

    /** The end of the build: the height, the position, the padding below. */
    method FinishCache(maxLineWidth: nat, breaks: nat)
      requires |lines| <= options.paddingTop + breaks + 1
      modifies `options, `lines, `nextLine, `rightOffset, `logoWidth, `logoHeight
      ensures var o := old(options);
              var width := maxLineWidth + o.paddingRight;
              var position := SelectPosition(o.position, columns, width);
              && options == o.(position := position)
              && logoHeight == o.paddingTop + (if !o.chafa && o.height > breaks then o.height else breaks)
              && logoWidth == (if position == Left then width else 0)
              && lines == old(lines) + Blanks(logoHeight + 1 - |old(lines)|)
              && nextLine == 0 && rightOffset == Before32(width)
    {
      hide Blanks, Stored;
      var parsedHeight := breaks;
      if !options.chafa && options.height > parsedHeight {
        parsedHeight := options.height;
      }
      options := options.(position := SelectPosition(options.position, columns, maxLineWidth + options.paddingRight));
      logoHeight := options.paddingTop + parsedHeight;
      logoWidth := if options.position == Left then maxLineWidth + options.paddingRight else 0;
      PushBlanks(logoHeight + 1 - |lines|);
      nextLine := 0;
      rightOffset := Before32(maxLineWidth + options.paddingRight);
    }

    /** `logoLineCacheBuild`, with `ffLogoResolveAutoPosition`. */
    method BuildCache(data: text, replace: bool)
      modifies `options, `lines, `nextLine, `rightOffset, `logoWidth, `logoHeight
      ensures var b := Build(Job(old(options), replace, wcwidth), data, columns);
              && Snapshot() == State(b.lines, 0, b.rightOffset, b.position, b.width, b.height, keysHeight)
              && options == old(options).(position := b.position)
    {
      hide Rows, FirstCarry, MaxWidth, Blanks, SelectPosition, Before32;
      ClearCache();
      PushBlanks(options.paddingTop);
      ghost var rows := TextRows(Job(options, replace, wcwidth), data);
      var maxLineWidth, parsedHeight := options.width, 0;
      if At(data, 0) != NUL {
        maxLineWidth, parsedHeight := PushRows(data, replace);
      }
      NoRows(options.width);
      FinishCache(maxLineWidth, parsedHeight);
    }

    /** `ffLogoPrintChars`: a logo on top is printed at once, any other stays in the cache. */
    method PrintChars(data: text, replace: bool)
      modifies this
      ensures var b := Build(Job(old(options), replace, wcwidth), data, columns);
              var s := State(b.lines, 0, b.rightOffset, b.position, b.width, b.height, old(keysHeight));
              && options == old(options).(position := b.position)
              && (b.position != Top ==> Snapshot() == s && screen == old(screen))
              && (b.position == Top ==>
                    && Snapshot() == Cleared(s).(width := 0, height := 0)
                    && screen == Put(PutRest(s, 0, |s.lines|, old(screen)), PutFeeds(options.paddingBottom)))
    {
      hide Build, Put;
      BuildCache(data, replace);
      if options.position != Top {
        return;
      }
      ghost var s := Snapshot();
      var i := 0;
      while i < |lines|
        invariant 0 <= i <= |lines|
        invariant Snapshot() == s && options == old(options).(position := s.position)
        invariant screen == PutRest(s, 0, i, old(screen))
      {
        screen := Put(screen, PutArt(lines[i].chars));
        screen := Put(screen, PutFeeds(1));
        i := i + 1;
      }
      screen := Put(screen, PutFeeds(options.paddingBottom));
      logoWidth, logoHeight := 0, 0;
      ClearCache();
    }

    /** `ffLogoPrintLine`. */
    method PrintLogoLine()
      modifies `screen, `nextLine, `keysHeight
      ensures Snapshot() == Advance(old(Snapshot()))
      ensures screen == PrintLine(old(Snapshot()), watch, old(screen))
    {
      hide Put;
      if |lines| > 0 {
        if nextLine < |lines| {
          var line := lines[nextLine];
          if options.position == Right {
            screen := Put(screen, FarRight(rightOffset));
            screen := Put(screen, PutArt(line.chars));
            screen := Put(screen, FirstColumn);
          } else {
            screen := Put(screen, PutArt(line.chars));
            var remaining := logoWidth;
            remaining := if line.width < remaining then remaining - line.width else 0;
            screen := Put(screen, PutSpaces(remaining));
          }
          nextLine := nextLine + 1;
        } else if options.position == Left {
          screen := Put(screen, PutSpaces(logoWidth));
        }
      } else if logoWidth > 0 {
        screen := Put(screen, Forward(logoWidth));
      }
      if watch && options.position == Left {
        screen := Put(screen, EraseLine);
      }
      keysHeight := keysHeight + 1;
    }

    /** The modules of one round, each printing one line. */
    method PrintModuleLines(infos: seq<text>)
      modifies `screen, `nextLine, `keysHeight
      ensures Snapshot() == AdvanceBy(old(Snapshot()), |infos|)
      ensures screen == PrintModules(old(Snapshot()), watch, infos, old(screen))
    {
      hide Put, PrintLine, Advance;
      ghost var s := Snapshot();
      var i := 0;
      assert infos[..0] == [];
      while i < |infos|
        invariant 0 <= i <= |infos|
        invariant Snapshot() == AdvanceBy(s, i)
        invariant screen == PrintModules(s, watch, infos[..i], old(screen))
      {
        PrintLogoLine();
        screen := Put(screen, PutInfo(infos[i]));
        screen := Put(screen, PutFeeds(1));
        i := i + 1;
        assert infos[..i][..i - 1] == infos[..i - 1] && infos[..i][i - 1] == infos[i - 1];
      }
      assert infos[..|infos|] == infos;
    }

    /** `ffLogoPrintRemaining`. */
    method PrintRemainingLines()
      requires nextLine <= |lines|
      modifies `screen, `lines, `nextLine, `rightOffset, `keysHeight
      ensures Snapshot() == RemainingState(old(Snapshot()))
      ensures screen == PrintRemaining(old(Snapshot()), options.pipe, old(screen))
    {
      hide Put;
      ghost var s := Snapshot();
      if |lines| > 0 && (options.position == Left || options.position == Right) {
        while nextLine < |lines|
          invariant s.nextLine <= nextLine <= |lines|
          invariant Snapshot() == s.(nextLine := nextLine)
          invariant screen == PutRest(s, s.nextLine, nextLine, old(screen))
        {
          if options.position == Right {
            screen := Put(screen, FarRight(rightOffset));
          }
          screen := Put(screen, PutArt(lines[nextLine].chars));
          screen := Put(screen, PutFeeds(1));
          nextLine := nextLine + 1;
        }
        if !options.pipe {
          screen := Put(screen, ResetColor);
        }
        keysHeight := logoHeight + 1;
        ClearCache();
        return;
      }
      screen := Put(screen, PutFeeds(if keysHeight <= logoHeight then logoHeight - keysHeight + 1 else 0));
      keysHeight := logoHeight + 1;
    }

    /**
      The round loop of `run` after the logo is loaded: without `watch` one
      round, otherwise the given rounds of a loop that only a signal ends.
     */
    method Run(rounds: seq<seq<text>>, printRemaining: bool)
      requires nextLine <= |lines| && (watch || |rounds| == 1)
      modifies `screen, `lines, `nextLine, `rightOffset, `keysHeight
      ensures watch ==> Snapshot() == WatchState(old(Snapshot()), rounds)
      ensures watch ==> screen == Watch(old(Snapshot()), options.pipe, rounds, old(screen))
      ensures !watch && printRemaining ==>
                && Snapshot() == RemainingState(AdvanceBy(old(Snapshot()), |rounds[0]|))
                && screen == Round(old(Snapshot()), false, options.pipe, rounds[0], old(screen))
      ensures !watch && !printRemaining ==>
                && Snapshot() == AdvanceBy(old(Snapshot()), |rounds[0]|)
                && screen == PrintModules(old(Snapshot()), false, rounds[0], old(screen))
    {
      hide Put, PrintModules, AdvanceBy, RemainingState, PrintRemaining;
      ghost var s := Snapshot();
      if !watch {
        PrintModuleLines(rounds[0]);
        CacheBounded(s, |rounds[0]|);
        if printRemaining {
          PrintRemainingLines();
        }
        return;
      }
      var r := 0;
      assert rounds[..0] == [];
      while r < |rounds|
        invariant 0 <= r <= |rounds| && nextLine <= |lines|
        invariant Snapshot() == WatchState(s, rounds[..r])
        invariant screen == Watch(s, options.pipe, rounds[..r], old(screen))
      {
        CacheBounded(Snapshot(), |rounds[r]|);
        PrintModuleLines(rounds[r]);
        PrintRemainingLines();
        screen := Put(screen, EraseBelow);
        screen := Put(screen, Home);
        keysHeight := 0;
        r := r + 1;
        assert rounds[..r][..r - 1] == rounds[..r - 1] && rounds[..r][r - 1] == rounds[r - 1];
      }
      assert rounds[..|rounds|] == rounds;
    }
  }

  /** The next line to print stays within the cache. */
  lemma {:induction false} CacheBounded(s: State, n: nat)
    requires s.nextLine <= |s.lines|
    ensures AdvanceBy(s, n).nextLine <= |AdvanceBy(s, n).lines|
    ensures RemainingState(AdvanceBy(s, n)).nextLine <= |RemainingState(AdvanceBy(s, n)).lines|
  {
    if n > 0 {
      CacheBounded(s, n - 1);
    }
  }

  /** After the rows `done`: the others are still to come, and `max` is the width so far. */
  ghost predicate Midway(j: Job, data: text, done: seq<CachedLine>, rest: text, carry: text, max: nat) {
    done + Rows(j, rest, carry) == TextRows(j, data) && max == MaxWidth(done, j.options.width)
  }

  lemma AtFirstRow(j: Job, data: text)
    requires At(data, 0) != NUL
    ensures Midway(j, data, [], data, FirstCarry(j), j.options.width)
  {
    hide Rows, FirstCarry;
    NoRows(j.options.width);
  }

  lemma NextRow(j: Job, data: text, done: seq<CachedLine>, rest: text, carry: text, max: nat,
                line: text, width: nat, newCarry: text, after: text)
    requires Midway(j, data, done, rest, carry, max)
    requires Row(Pen(line, width, newCarry), after) == ScanRow(j, rest, StartPen(j.options, carry))
    ensures var next := done + [Stored(j.options, line, width)];
            var most := if width > max then width else max;
            && (AtBreak(after) ==> Midway(j, data, next, AfterBreak(after), newCarry, most))
            && (!AtBreak(after) ==> next == TextRows(j, data) && most == MaxWidth(next, j.options.width))
  {
    hide ScanRow, StartPen, Stored, TextRows, MaxWidth;
    var stored := Stored(j.options, line, width);
    var more := if AtBreak(after) then Rows(j, AfterBreak(after), newCarry) else [];
    assert Rows(j, rest, carry) == [stored] + more;
    assert done + ([stored] + more) == (done + [stored]) + more;
    assert (done + [stored]) + [] == done + [stored];
    MaxWidthSnoc(done, stored, j.options.width);
    StoredWidth(j.options, line, width);
  }

  lemma MaxWidthSnoc(lines: seq<CachedLine>, line: CachedLine, least: nat)
    ensures MaxWidth(lines + [line], least) ==
            if line.width > MaxWidth(lines, least) then line.width else MaxWidth(lines, least)
  {
    assert (lines + [line])[..|lines|] == lines;
  }

  lemma StoredWidth(o: Options, chars: text, width: nat)
    ensures Stored(o, chars, width).width == width
  {
  }

  lemma NoRows(least: nat)
    ensures MaxWidth([], least) == least
  {
  }
}
