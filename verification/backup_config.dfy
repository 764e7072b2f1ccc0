/**
  Configuration of an online backup: the defaults and the option functions
  that `Backup` folds over them, in order.
 */
module BackupConfig {
  import opened Base

  const MILLISECOND: int64 := 1_000_000

  /** The default pause between steps: 250 ms. */
  const DEFAULT_SLEEP: int64 := 250 * MILLISECOND
  /** The default number of pages copied per step. */
  const DEFAULT_PAGES: int32 := 50
  /** The default name of both the source and the destination database. */
  const DEFAULT_DB: string := "main"

  /**
    The progress callback. Its effect belongs to the host, so the model keeps
    only which callback it is; the default does nothing.
   */
  datatype ProgressFunc = NoOpProgress | HostProgress(id: nat)

  datatype Config = Config(
    destDb: string,
    srcDb: string,
    sleepPerStep: int64,
    pagesPerStep: int32,
    progressFunc: ProgressFunc)

  /** Each option sets exactly one field of the configuration. */
  datatype BackupOption =
    | WithSleepPerStep(d: int64)
    | WithPagesPerStep(p: int32)
    | WithProgressFunc(f: ProgressFunc)
    | WithDestinationDatabase(destDb: string)
    | WithSourceDatabase(srcDb: string)

  function DefaultConfig(): (r: Config) {
    Config(DEFAULT_DB, DEFAULT_DB, DEFAULT_SLEEP, DEFAULT_PAGES, NoOpProgress)
  }

  function ApplyOption(c: Config, o: BackupOption): (r: Config) {
    match o
    case WithSleepPerStep(d) => c.(sleepPerStep := d)
    case WithPagesPerStep(p) => c.(pagesPerStep := p)
    case WithProgressFunc(f) => c.(progressFunc := f)
    case WithDestinationDatabase(db) => c.(destDb := db)
    case WithSourceDatabase(db) => c.(srcDb := db)
  }

  /** Applies the options to `c` front to back, as the `for i := range opts` loop does. */
  function ApplyAll(c: Config, opts: seq<BackupOption>): (r: Config)
    decreases |opts|
  {
    if |opts| == 0 then c else ApplyAll(ApplyOption(c, opts[0]), opts[1..])
  }

  /** The configuration `Backup` runs with. */
  function Configure(opts: seq<BackupOption>): (r: Config) {
    ApplyAll(DefaultConfig(), opts)
  }

  // Reference definition: for each field, the value of the LAST option that
  // sets it, found by scanning from the end.

  function LastOf<T>(opts: seq<BackupOption>, pick: BackupOption -> Option<T>): (r: Option<T>)
    decreases |opts|
  {
    if |opts| == 0 then None
    else if pick(opts[|opts| - 1]).Some? then pick(opts[|opts| - 1])
    else LastOf(opts[..|opts| - 1], pick)
  }

  function PickSleep(o: BackupOption): (r: Option<int64>) {
    if o.WithSleepPerStep? then Some(o.d) else None
  }

  function PickPages(o: BackupOption): (r: Option<int32>) {
    if o.WithPagesPerStep? then Some(o.p) else None
  }

  function PickProgress(o: BackupOption): (r: Option<ProgressFunc>) {
    if o.WithProgressFunc? then Some(o.f) else None
  }

  function PickDest(o: BackupOption): (r: Option<string>) {
    if o.WithDestinationDatabase? then Some(o.destDb) else None
  }

  function PickSrc(o: BackupOption): (r: Option<string>) {
    if o.WithSourceDatabase? then Some(o.srcDb) else None
  }

  /** Each field holds the last option's value for it, or its default when no option sets it. */
  function LastWins(opts: seq<BackupOption>): (r: Config) {
    Config(
      LastOf(opts, PickDest).GetOr(DEFAULT_DB),
      LastOf(opts, PickSrc).GetOr(DEFAULT_DB),
      LastOf(opts, PickSleep).GetOr(DEFAULT_SLEEP),
      LastOf(opts, PickPages).GetOr(DEFAULT_PAGES),
      LastOf(opts, PickProgress).GetOr(NoOpProgress))
  }

  lemma {:induction false} ApplyAllSnoc(c: Config, opts: seq<BackupOption>, o: BackupOption)
    ensures ApplyAll(c, opts + [o]) == ApplyOption(ApplyAll(c, opts), o)
    decreases |opts|
  {
    if |opts| == 0 {
      assert (opts + [o])[1..] == [];
    } else {
      assert (opts + [o])[1..] == opts[1..] + [o];
      ApplyAllSnoc(ApplyOption(c, opts[0]), opts[1..], o);
    }
  }

  /**
    Folding the options over the defaults gives, field by field, the last
    option that touches the field, and the default for untouched fields.
   */
  lemma {:induction false} ConfigureIsLastWins(opts: seq<BackupOption>)
    ensures Configure(opts) == LastWins(opts)
    decreases |opts|
  {
    if |opts| > 0 {
      var init := opts[..|opts| - 1];
      assert opts == init + [opts[|opts| - 1]];
      ApplyAllSnoc(DefaultConfig(), init, opts[|opts| - 1]);
      ConfigureIsLastWins(init);
    }
  }

  /** With no options, the configuration is the documented default. */
  lemma DefaultsWithoutOptions()
    ensures Configure([]) == Config("main", "main", 250_000_000, 50, NoOpProgress)
  {
  }

  /** The configuration field an option sets. */
  datatype Field = DestField | SrcField | SleepField | PagesField | ProgressField

  function FieldOf(o: BackupOption): (f: Field) {
    match o
    case WithSleepPerStep(_) => SleepField
    case WithPagesPerStep(_) => PagesField
    case WithProgressFunc(_) => ProgressField
    case WithDestinationDatabase(_) => DestField
    case WithSourceDatabase(_) => SrcField
  }

  /** The last option of `x + y` that a selector picks lies in `y` if one there does. */
  lemma {:induction false} LastOfConcat<T>(x: seq<BackupOption>, y: seq<BackupOption>, pick: BackupOption -> Option<T>)
    ensures LastOf(x + y, pick) == if LastOf(y, pick).Some? then LastOf(y, pick) else LastOf(x, pick)
    decreases |y|
  {
    if |y| == 0 {
      assert x + y == x;
    } else {
      assert (x + y)[..|x + y| - 1] == x + y[..|y| - 1];
      LastOfConcat(x, y[..|y| - 1], pick);
    }
  }

  /** A selector that picks nothing in `s` finds no last option there. */
  lemma {:induction false} LastOfNone<T>(s: seq<BackupOption>, pick: BackupOption -> Option<T>)
    requires forall i :: 0 <= i < |s| ==> pick(s[i]).None?
    ensures LastOf(s, pick).None?
    decreases |s|
  {
    if |s| > 0 {
      LastOfNone(s[..|s| - 1], pick);
    }
  }

  /** Dropping an option changes no selection when a later one is picked in its place. */
  lemma LastOfDrop<T>(pre: seq<BackupOption>, a: BackupOption, rest: seq<BackupOption>, pick: BackupOption -> Option<T>)
    requires pick(a).Some? ==> LastOf(rest, pick).Some?
    ensures LastOf(pre + [a] + rest, pick) == LastOf(pre + rest, pick)
  {
    LastOfConcat(pre + [a], rest, pick);
    LastOfConcat(pre, rest, pick);
    assert (pre + [a])[..|pre + [a]| - 1] == pre;
  }

  /** A later option that sets the same field makes a selector find something after `a`. */
  lemma LaterPicked<T>(mid: seq<BackupOption>, b: BackupOption, post: seq<BackupOption>, pick: BackupOption -> Option<T>)
    requires pick(b).Some?
    ensures LastOf(mid + [b] + post, pick).Some?
  {
    LastOfConcat(mid + [b], post, pick);
  }

  /**
    Of two options setting the same field, the earlier has no effect, wherever
    they stand in the list and whatever lies between and after them; and when
    no option after the later one sets that field, the field holds the later
    one's value (applying it again changes nothing).
   */
  lemma LaterOptionOverrides(pre: seq<BackupOption>, a: BackupOption, mid: seq<BackupOption>,
                             b: BackupOption, post: seq<BackupOption>)
    requires FieldOf(a) == FieldOf(b)
    ensures Configure(pre + [a] + mid + [b] + post) == Configure(pre + mid + [b] + post)
    ensures (forall i :: 0 <= i < |post| ==> FieldOf(post[i]) != FieldOf(b)) ==>
              ApplyOption(Configure(pre + [a] + mid + [b] + post), b) == Configure(pre + [a] + mid + [b] + post)
  {
    var rest := mid + [b] + post;
    var all := pre + [a] + mid + [b] + post;
    assert all == pre + [a] + rest;
    assert pre + mid + [b] + post == pre + rest;
    ConfigureIsLastWins(all);
    ConfigureIsLastWins(pre + rest);
    match b {
      case WithSleepPerStep(_) => LaterPicked(mid, b, post, PickSleep);
      case WithPagesPerStep(_) => LaterPicked(mid, b, post, PickPages);
      case WithProgressFunc(_) => LaterPicked(mid, b, post, PickProgress);
      case WithDestinationDatabase(_) => LaterPicked(mid, b, post, PickDest);
      case WithSourceDatabase(_) => LaterPicked(mid, b, post, PickSrc);
    }
    LastOfDrop(pre, a, rest, PickDest);
    LastOfDrop(pre, a, rest, PickSrc);
    LastOfDrop(pre, a, rest, PickSleep);
    LastOfDrop(pre, a, rest, PickPages);
    LastOfDrop(pre, a, rest, PickProgress);
    if forall i :: 0 <= i < |post| ==> FieldOf(post[i]) != FieldOf(b) {
      var head := pre + [a] + mid + [b];
      assert all == head + post;
      assert head[..|head| - 1] == pre + [a] + mid;
      match b {
        case WithSleepPerStep(_) => LastOfNone(post, PickSleep); LastOfConcat(head, post, PickSleep);
        case WithPagesPerStep(_) => LastOfNone(post, PickPages); LastOfConcat(head, post, PickPages);
        case WithProgressFunc(_) => LastOfNone(post, PickProgress); LastOfConcat(head, post, PickProgress);
        case WithDestinationDatabase(_) => LastOfNone(post, PickDest); LastOfConcat(head, post, PickDest);
        case WithSourceDatabase(_) => LastOfNone(post, PickSrc); LastOfConcat(head, post, PickSrc);
      }
    }
  }
}
