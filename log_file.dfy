/**
 * The choice of the log file's name (`getLogFileName`): `<base>_<date>.log`
 * in the log directory, or, when that is taken, `<base>_<date>_<i>.log` for
 * the first `i >= 1` that is free. The file system is the finite set of
 * paths that exist; the date is the text `time.strftime("%d-%m-%Y")` gave.
 */
module LogFile {
  import opened PyInt
  import opened PyPath

  /** The name tried first. */
  function PlainName(basename: string, date: string): string {
    basename + "_" + date + ".log"
  }

  /** The name tried for counter value `i`. */
  function NumberedName(basename: string, date: string, i: nat): string {
    basename + "_" + date + "_" + NatToStr(i) + ".log"
  }

  /** Distinct counter values give distinct log file paths. */
  lemma NumberedInjective(logdir: string, basename: string, date: string, i: nat, j: nat)
    requires Join(logdir, NumberedName(basename, date, i)) == Join(logdir, NumberedName(basename, date, j))
    ensures i == j
  {
    var pre := basename + "_" + date + "_";
    var a, b := NumberedName(basename, date, i), NumberedName(basename, date, j);
    assert a[0] == b[0] by {
      if |basename| > 0 {
        assert a[0] == basename[0] && b[0] == basename[0];
      } else {
        assert a[0] == '_' && b[0] == '_';
      }
    }
    JoinInjective(logdir, a, b);
    var si, sj := NatToStr(i), NatToStr(j);
    assert a == pre + si + ".log" && b == pre + sj + ".log";
    assert |si| == |sj|;
    assert si == a[|pre|..|pre| + |si|];
    assert sj == b[|pre|..|pre| + |sj|];
    NatToStrInjective(i, j);
  }

  /**
   * `getLogFileName(basename, logdir)`: a path in `logdir` that does not
   * exist yet. It is the plain name when that is free; otherwise it is the
   * numbered name for the smallest counter value whose name is free.
   */
  method GetLogFileName(basename: string, date: string, logdir: string, existing: set<string>)
    returns (r: string)
    ensures r !in existing
    ensures Join(logdir, PlainName(basename, date)) !in existing ==> r == Join(logdir, PlainName(basename, date))
    ensures Join(logdir, PlainName(basename, date)) in existing ==>
      exists i: nat :: i >= 1 && r == Join(logdir, NumberedName(basename, date, i)) &&
        forall j: nat :: 1 <= j < i ==> Join(logdir, NumberedName(basename, date, j)) in existing
  {
    var filename := basename + "_" + date;
    if Join(logdir, filename + ".log") in existing {
      var filenamefree := false;
      var i: nat := 1;
      // The existing paths that a counter value at or above `i` could still name.
      ghost var unseen := existing;
      while !filenamefree
        invariant i >= 1
        invariant unseen <= existing
        invariant forall j: nat :: 1 <= j < i ==> Join(logdir, NumberedName(basename, date, j)) in existing
        invariant forall j: nat :: j >= i && Join(logdir, NumberedName(basename, date, j)) in existing ==>
          Join(logdir, NumberedName(basename, date, j)) in unseen
        invariant filenamefree ==> Join(logdir, NumberedName(basename, date, i)) !in existing
        decreases |unseen|, if filenamefree then 0 else 1
      {
        if Join(logdir, filename + "_" + NatToStr(i) + ".log") in existing {
          var taken := Join(logdir, NumberedName(basename, date, i));
          forall j: nat | j > i
            ensures Join(logdir, NumberedName(basename, date, j)) != taken
          {
            if Join(logdir, NumberedName(basename, date, j)) == taken {
              NumberedInjective(logdir, basename, date, i, j);
            }
          }
          unseen := unseen - {taken};
          i := i + 1;
        } else {
          filenamefree := true;
        }
      }
      r := Join(logdir, filename + "_" + NatToStr(i) + ".log");
    } else {
      r := Join(logdir, filename + ".log");
    }
  }
}
