/** cleanupOldFiles: one retention sweep over the temporary directory
    (render sessions) and the output directory (finished videos). */
module Cleanup {

  /** 24 hours, in milliseconds. */
  const MaxTempAge: int := 24 * 60 * 60 * 1000

  /** 7 days, in milliseconds. */
  const MaxOutputAge: int := 7 * 24 * 60 * 60 * 1000

  /** `now - mtimeMs > maxAge`: strictly older than the limit. */
  predicate Expired(mtime: int, now: int, maxAge: int) {
    now - mtime > maxAge
  }

  /** What a pass over a directory (entry name to modification time) leaves
      behind, given the entries whose stat or removal throws: the entries
      that have not expired, and the expired ones that could not be removed. */
  function Survivors(dir: map<string, int>, now: int, maxAge: int, failing: set<string>): (r: map<string, int>)
    ensures r.Keys <= dir.Keys
    ensures forall f :: f in r ==> r[f] == dir[f]
    ensures forall f :: f in dir && !Expired(dir[f], now, maxAge) ==> f in r
  {
    map f | f in dir && (!Expired(dir[f], now, maxAge) || f in failing) :: dir[f]
  }

  /** Without failures, an entry is removed exactly when it has expired;
      an entry exactly maxAge old is kept; nothing is changed, only
      removed. */
  lemma SweepRemovesExactlyExpired(dir: map<string, int>, now: int, maxAge: int, f: string)
    requires f in dir
    ensures f in Survivors(dir, now, maxAge, {}) <==> now - dir[f] <= maxAge
    ensures now - dir[f] == maxAge ==> f in Survivors(dir, now, maxAge, {})
    ensures f in Survivors(dir, now, maxAge, {}) ==> Survivors(dir, now, maxAge, {})[f] == dir[f]
  {
  }

  /** A failing entry is skipped, and its failure changes nothing for the
      others. */
  lemma FailureIsLocal(dir: map<string, int>, now: int, maxAge: int, failing: set<string>, f: string)
    requires f in dir && f !in failing
    ensures f in Survivors(dir, now, maxAge, failing) <==> f in Survivors(dir, now, maxAge, {})
    ensures forall g :: g in failing && g in dir ==> g in Survivors(dir, now, maxAge, failing)
  {
  }

  /** A second sweep at the same time, with the same failures, removes
      nothing more. */
  lemma SweepIdempotent(dir: map<string, int>, now: int, maxAge: int, failing: set<string>)
    ensures Survivors(Survivors(dir, now, maxAge, failing), now, maxAge, failing) == Survivors(dir, now, maxAge, failing)
  {
  }

  /** A later sweep removes at least what an earlier one would have. */
  lemma LaterSweepRemovesMore(dir: map<string, int>, now1: int, now2: int, maxAge: int, failing: set<string>)
    requires now1 <= now2
    ensures Survivors(dir, now2, maxAge, failing).Keys <= Survivors(dir, now1, maxAge, failing).Keys
  {
  }

  /** The two directories, each an entry name to modification time map. */
  class Disk {
    var temp: map<string, int>
    var output: map<string, int>

    constructor(temp: map<string, int>, output: map<string, int>)
      ensures this.temp == temp && this.output == output
    {
      this.temp, this.output := temp, output;
    }

    /** The `for` loop over the temporary directory's listing: each entry
        older than the limit is removed (`fs.rm`, recursive); an entry
        whose stat or removal throws is skipped. */
    method SweepTemp(now: int, failing: set<string>)
      modifies this
      ensures temp == Survivors(old(temp), now, MaxTempAge, failing)
      ensures output == old(output)
    {
      var dir := temp;
      var pending := temp.Keys;
      assert temp == Survivors(dir, now, MaxTempAge, failing + pending);
      while pending != {}
        invariant pending <= dir.Keys
        invariant temp == Survivors(dir, now, MaxTempAge, failing + pending)
        invariant output == old(output)
        decreases |pending|
      {
        var f :| f in pending;
        if f !in failing && Expired(dir[f], now, MaxTempAge) {
          temp := temp - {f};
        }
        pending := pending - {f};
      }
    }

    /** The same loop over the output directory (`fs.unlink`), with the
        seven-day limit. */
    method SweepOutput(now: int, failing: set<string>)
      modifies this
      ensures output == Survivors(old(output), now, MaxOutputAge, failing)
      ensures temp == old(temp)
    {
      var dir := output;
      var pending := output.Keys;
      assert output == Survivors(dir, now, MaxOutputAge, failing + pending);
      while pending != {}
        invariant pending <= dir.Keys
        invariant output == Survivors(dir, now, MaxOutputAge, failing + pending)
        invariant temp == old(temp)
        decreases |pending|
      {
        var f :| f in pending;
        if f !in failing && Expired(dir[f], now, MaxOutputAge) {
          output := output - {f};
        }
        pending := pending - {f};
      }
    }

    /** One sweep, with one `now` for every comparison. A directory that
        cannot be listed is left as it is, and does not stop the sweep of
        the other. */
    method CleanupOldFiles(now: int, tempUnlistable: bool, outputUnlistable: bool,
                           tempFailing: set<string>, outputFailing: set<string>)
      modifies this
      ensures temp == if tempUnlistable then old(temp) else Survivors(old(temp), now, MaxTempAge, tempFailing)
      ensures output == if outputUnlistable then old(output) else Survivors(old(output), now, MaxOutputAge, outputFailing)
    {
      if !tempUnlistable {
        SweepTemp(now, tempFailing);
      }
      if !outputUnlistable {
        SweepOutput(now, outputFailing);
      }
    }
  }
}
