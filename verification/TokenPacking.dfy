/** Filling prompts with patches within a token budget (`generate_full_patch` and `pr_generate_compressed_diff`). Token
    counts are given: `raw` for the patch as it is tested, `wrapped` for the patch as it is charged. */
module TokenPacking {
  const SOFT_THRESHOLD := 1500
  const HARD_THRESHOLD := 1000

  /** An entry of the file dictionary. */
  datatype Entry = Entry(name: string, hasPatch: bool, raw: nat, wrapped: nat)

  datatype Fate = HardStopped | TooLarge | Empty | Included

  function FateOf(total: int, maxTokens: int, e: Entry): Fate {
    if total > maxTokens - HARD_THRESHOLD then HardStopped
    else if total + e.raw > maxTokens - SOFT_THRESHOLD then TooLarge
    else if e.hasPatch then Included else Empty
  }

  /** What one pass makes of the files it is offered. */
  datatype Pass = Pass(total: int, included: seq<Entry>, remaining: seq<Entry>, stopped: seq<Entry>, empty: seq<Entry>) {
    function Take(maxTokens: int, e: Entry): Pass {
      match FateOf(total, maxTokens, e)
      case HardStopped => this.(stopped := stopped + [e])
      case TooLarge => this.(remaining := remaining + [e])
      case Empty => this.(empty := empty + [e])
      case Included => this.(included := included + [e], total := total + e.wrapped)
    }
  }

  function PassOver(prompt: nat, maxTokens: int, offered: seq<Entry>): Pass {
    if offered == [] then Pass(prompt, [], [], [], [])
    else PassOver(prompt, maxTokens, offered[..|offered| - 1]).Take(maxTokens, offered[|offered| - 1])
  }

  /** The entries of the dictionary whose names are still listed. */
  function Offered(files: seq<Entry>, names: seq<string>): seq<Entry> {
    if files == [] then []
    else Offered(files[..|files| - 1], names)
         + (if files[|files| - 1].name in names then [files[|files| - 1]] else [])
  }

  function Names(files: seq<Entry>): (r: seq<string>)
    ensures |r| == |files| && forall i :: 0 <= i < |r| ==> r[i] == files[i].name
  {
    seq(|files|, i requires 0 <= i < |files| => files[i].name)
  }

  /** The next entry of the dictionary. */
  lemma {:induction false} PassStep(prompt: nat, maxTokens: int, files: seq<Entry>, i: nat, listed: seq<string>)
    requires i < |files|
    ensures PassOver(prompt, maxTokens, Offered(files[..i + 1], listed)) ==
            var p := PassOver(prompt, maxTokens, Offered(files[..i], listed));
            if files[i].name in listed then p.Take(maxTokens, files[i]) else p
  {
    var offered := Offered(files[..i], listed);
    assert files[..i + 1][..i] == files[..i] && files[..i + 1][i] == files[i];
    assert (offered + [files[i]])[..|offered|] == offered;
    assert offered + [] == offered;
  }

  /** The variables of the loop hold what the pass has come to. */
  ghost predicate Agrees(p: Pass, total: int, patches: seq<Entry>, remaining: seq<string>, inPatch: seq<string>) {
    total == p.total && patches == p.included && remaining == Names(p.remaining) && inPatch == Names(p.included)
  }

  /** One file that is still listed. */
  method TakeFile(total0: int, patches0: seq<Entry>, remaining0: seq<string>, inPatch0: seq<string>, e: Entry,
                  maxTokens: int, ghost p: Pass)
    returns (total: int, patches: seq<Entry>, remaining: seq<string>, inPatch: seq<string>)
    requires Agrees(p, total0, patches0, remaining0, inPatch0)
    ensures Agrees(p.Take(maxTokens, e), total, patches, remaining, inPatch)
  {
    total, patches, remaining, inPatch := total0, patches0, remaining0, inPatch0;
    if total > maxTokens - HARD_THRESHOLD {
      return;
    }
    if total + e.raw > maxTokens - SOFT_THRESHOLD {
      remaining := remaining + [e.name];
      return;
    }
    if e.hasPatch {
      patches := patches + [e];
      total := total + e.wrapped;
      inPatch := inPatch + [e.name];
    }
  }

  method GenerateFullPatch(files: seq<Entry>, maxTokens: int, listed: seq<string>, prompt: nat)
    returns (total: int, patches: seq<Entry>, remaining: seq<string>, inPatch: seq<string>)
    ensures var p := PassOver(prompt, maxTokens, Offered(files, listed));
            total == p.total && patches == p.included && remaining == Names(p.remaining) && inPatch == Names(p.included)
  {
    total := prompt;
    patches, remaining, inPatch := [], [], [];
    ghost var p := Pass(prompt, [], [], [], []);
    for i := 0 to |files|
      invariant p == PassOver(prompt, maxTokens, Offered(files[..i], listed))
      invariant Agrees(p, total, patches, remaining, inPatch)
    {
      PassStep(prompt, maxTokens, files, i, listed);
      if files[i].name in listed {
        total, patches, remaining, inPatch := TakeFile(total, patches, remaining, inPatch, files[i], maxTokens, p);
        p := p.Take(maxTokens, files[i]);
      }
    }
    assert files[..|files|] == files;
  }

  // ---------- one pass accounts for every file ----------

  function Wrapped(files: seq<Entry>): nat {
    if files == [] then 0 else Wrapped(files[..|files| - 1]) + files[|files| - 1].wrapped
  }

  lemma {:induction false} TakeAccounts(p: Pass, maxTokens: int, e: Entry)
    ensures var q := p.Take(maxTokens, e);
            multiset(q.included) + multiset(q.remaining) + multiset(q.stopped) + multiset(q.empty) ==
            multiset(p.included) + multiset(p.remaining) + multiset(p.stopped) + multiset(p.empty) + multiset{e}
  {
  }

  /** Every file offered has exactly one fate. */
  lemma {:induction false} PassAccounts(prompt: nat, maxTokens: int, offered: seq<Entry>)
    ensures var p := PassOver(prompt, maxTokens, offered);
            multiset(offered) == multiset(p.included) + multiset(p.remaining) + multiset(p.stopped) + multiset(p.empty)
  {
    if offered != [] {
      var init, e := offered[..|offered| - 1], offered[|offered| - 1];
      assert offered == init + [e];
      PassAccounts(prompt, maxTokens, init);
      TakeAccounts(PassOver(prompt, maxTokens, init), maxTokens, e);
    }
  }

  /** The tokens charged are those of the files included, and a file included overdraws the soft budget by no more than
      wrapping adds to a patch. */
  lemma {:induction false} PassTotal(prompt: nat, maxTokens: int, offered: seq<Entry>, extra: int)
    requires forall e :: e in offered ==> e.wrapped - e.raw <= extra
    ensures var p := PassOver(prompt, maxTokens, offered);
            && p.total == prompt + Wrapped(p.included)
            && (p.included != [] ==> p.total <= maxTokens - SOFT_THRESHOLD + extra)
  {
    if offered == [] {
    } else {
      var init, e := offered[..|offered| - 1], offered[|offered| - 1];
      assert e in offered && forall x :: x in init ==> x in offered;
      PassTotal(prompt, maxTokens, init, extra);
    }
  }

  /** What a file of a pass comes to, by the patches included before it: past the hard threshold nothing is done with it;
      one that does not fit under the soft threshold is left; any other is included if it has a patch. */
  lemma {:induction false} EntryFate(prompt: nat, maxTokens: int, offered: seq<Entry>, i: nat)
    requires i < |offered|
    ensures var p, q := PassOver(prompt, maxTokens, offered[..i]), PassOver(prompt, maxTokens, offered[..i + 1]);
            var e, total := offered[i], prompt + Wrapped(p.included);
            var stops, fits := total > maxTokens - 1000, total + e.raw <= maxTokens - 1500;
            && q.included == p.included + (if !stops && fits && e.hasPatch then [e] else [])
            && q.remaining == p.remaining + (if !stops && !fits then [e] else [])
            && q.stopped == p.stopped + (if stops then [e] else [])
  {
    var init := offered[..i];
    assert offered[..i + 1][..i] == init;
    PassCharges(prompt, maxTokens, init);
  }

  lemma {:induction false} PassCharges(prompt: nat, maxTokens: int, offered: seq<Entry>)
    ensures PassOver(prompt, maxTokens, offered).total == prompt + Wrapped(PassOver(prompt, maxTokens, offered).included)
  {
    if offered != [] {
      var init, e := offered[..|offered| - 1], offered[|offered| - 1];
      PassCharges(prompt, maxTokens, init);
      var some := PassOver(prompt, maxTokens, init).included;
      assert (some + [e])[..|some|] == some;
    }
  }

  /** A pass that stops nothing and places nothing leaves only files that do not fit even a fresh prompt. */
  lemma {:induction false} NothingPlaced(prompt: nat, maxTokens: int, offered: seq<Entry>)
    requires var p := PassOver(prompt, maxTokens, offered); p.included == [] && p.stopped == []
    ensures var p := PassOver(prompt, maxTokens, offered);
            p.total == prompt && forall e :: e in p.remaining ==> prompt + e.raw > maxTokens - SOFT_THRESHOLD
  {
    if offered != [] {
      NothingPlaced(prompt, maxTokens, offered[..|offered| - 1]);
    }
  }

  /** Nothing is stopped if the prompt is within the hard budget and wrapping adds to no patch more than the difference
      between the two thresholds. */
  lemma {:induction false} SmallWrapsStopNothing(prompt: nat, maxTokens: int, offered: seq<Entry>)
    requires prompt <= maxTokens - HARD_THRESHOLD
    requires forall e :: e in offered && e.hasPatch ==> e.wrapped - e.raw <= SOFT_THRESHOLD - HARD_THRESHOLD
    ensures PassOver(prompt, maxTokens, offered).stopped == []
    ensures PassOver(prompt, maxTokens, offered).total <= maxTokens - HARD_THRESHOLD
  {
    if offered != [] {
      var init := offered[..|offered| - 1];
      assert offered[|offered| - 1] in offered && forall x :: x in init ==> x in offered;
      SmallWrapsStopNothing(prompt, maxTokens, init);
    }
  }

  ghost predicate Distinct(files: seq<Entry>) {
    forall i, j :: 0 <= i < j < |files| ==> files[i].name != files[j].name
  }

  /** Some of the files, in any order, none of them twice. */
  ghost predicate DrawnFrom(offered: seq<Entry>, files: seq<Entry>) {
    Distinct(offered) && forall e :: e in offered ==> e in files
  }

  lemma {:induction false} TwoOffered(prompt: nat, maxTokens: int, a: Entry, b: Entry)
    ensures PassOver(prompt, maxTokens, [a]) == Pass(prompt, [], [], [], []).Take(maxTokens, a)
    ensures PassOver(prompt, maxTokens, [a, b]) == PassOver(prompt, maxTokens, [a]).Take(maxTokens, b)
  {
    assert [a, b][..1] == [a] && [a][..0] == [];
  }

  /** A patch that wrapping makes too large stops the file after it. */
  lemma {:induction false} LargeWrapStops(e: Entry, f: Entry)
    requires e.hasPatch && e.wrapped - e.raw > SOFT_THRESHOLD - HARD_THRESHOLD
    ensures PassOver(0, e.raw + SOFT_THRESHOLD, [e, f]).stopped == [f]
  {
    TwoOffered(0, e.raw + SOFT_THRESHOLD, e, f);
    assert [] + [f] == [f];
  }

  lemma {:induction false} AllSame(files: seq<Entry>, offered: seq<Entry>)
    requires |files| <= 1 && forall e :: e in offered ==> e in files
    ensures |offered| >= 2 ==> offered[0].name == offered[1].name
  {
    assert |offered| >= 2 ==> offered[0] in offered && offered[1] in offered;
  }

  lemma {:induction false} OnlyOne(prompt: nat, maxTokens: int, files: seq<Entry>, offered: seq<Entry>)
    requires |files| <= 1 && DrawnFrom(offered, files) && prompt <= maxTokens - HARD_THRESHOLD
    ensures PassOver(prompt, maxTokens, offered).stopped == []
  {
    AllSame(files, offered);
    if offered != [] {
      assert offered == [offered[0]];
      TwoOffered(prompt, maxTokens, offered[0], offered[0]);
    }
  }

  /** The other file. */
  lemma {:induction false} Another(files: seq<Entry>, e: Entry) returns (f: Entry)
    requires Distinct(files) && |files| >= 2
    ensures f in files && f.name != e.name
  {
    f := if files[0].name == e.name then files[1] else files[0];
  }

  /** Whatever is offered of some files, and whatever the limit and a prompt within its hard budget: nothing is ever stopped
      exactly if there is one file at most, or wrapping adds to no patch more than the difference between the two
      thresholds. */
  lemma {:induction false} StopsNothing(files: seq<Entry>)
    requires Distinct(files)
    ensures (forall prompt: nat, maxTokens: int, offered: seq<Entry> ::
               prompt <= maxTokens - HARD_THRESHOLD && DrawnFrom(offered, files) ==>
                 PassOver(prompt, maxTokens, offered).stopped == []) <==>
            |files| <= 1 || forall e :: e in files && e.hasPatch ==> e.wrapped - e.raw <= SOFT_THRESHOLD - HARD_THRESHOLD
  {
    if |files| <= 1 || forall e :: e in files && e.hasPatch ==> e.wrapped - e.raw <= SOFT_THRESHOLD - HARD_THRESHOLD {
      forall prompt: nat, maxTokens: int, offered: seq<Entry> | prompt <= maxTokens - HARD_THRESHOLD && DrawnFrom(offered, files)
        ensures PassOver(prompt, maxTokens, offered).stopped == []
      {
        if |files| <= 1 {
          OnlyOne(prompt, maxTokens, files, offered);
        } else {
          SmallWrapsStopNothing(prompt, maxTokens, offered);
        }
      }
    } else {
      var e :| e in files && e.hasPatch && e.wrapped - e.raw > SOFT_THRESHOLD - HARD_THRESHOLD;
      var f := Another(files, e);
      assert DrawnFrom([e, f], files);
      LargeWrapStops(e, f);
    }
  }

  /** Otherwise a file can be lost: it is neither included nor left for a later pass. */
  lemma {:induction false} StoppedFileIsLost()
    ensures var a, b := Entry("a", true, 1500, 2001), Entry("b", true, 1, 1);
            PassOver(0, 3000, [a, b]) == Pass(2001, [a], [], [b], [])
  {
    var a, b := Entry("a", true, 1500, 2001), Entry("b", true, 1, 1);
    assert [a, b][..1] == [a] && [a][..0] == [];
    assert PassOver(0, 3000, [a]) == Pass(2001, [a], [], [], []);
  }

  // ---------- several passes ----------

  /** `some` are some of the files, in the same order. */
  ghost predicate Among(some: seq<Entry>, files: seq<Entry>) {
    if files == [] then some == []
    else
      var init, last := files[..|files| - 1], files[|files| - 1];
      || Among(some, init)
      || (some != [] && some[|some| - 1] == last && Among(some[..|some| - 1], init))
  }

  lemma {:induction false} AmongIn(some: seq<Entry>, files: seq<Entry>)
    requires Among(some, files)
    ensures forall e :: e in some ==> e in files
  {
    if files != [] {
      var init := files[..|files| - 1];
      assert forall e :: e in init ==> e in files;
      if Among(some, init) {
        AmongIn(some, init);
      } else {
        AmongIn(some[..|some| - 1], init);
        assert some == some[..|some| - 1] + [some[|some| - 1]];
      }
    }
  }

  lemma {:induction false} AmongSelf(files: seq<Entry>)
    ensures Among(files, files)
  {
    if files != [] {
      AmongSelf(files[..|files| - 1]);
    }
  }

  lemma {:induction false} RemainingAmong(prompt: nat, maxTokens: int, offered: seq<Entry>)
    ensures Among(PassOver(prompt, maxTokens, offered).remaining, offered)
  {
    if offered != [] {
      var init, e := offered[..|offered| - 1], offered[|offered| - 1];
      RemainingAmong(prompt, maxTokens, init);
      var r := PassOver(prompt, maxTokens, init).remaining;
      assert (r + [e])[..|r|] == r;
    }
  }

  lemma {:induction false} AmongAmong(a: seq<Entry>, b: seq<Entry>, c: seq<Entry>)
    requires Among(a, b) && Among(b, c)
    ensures Among(a, c)
    decreases |c|
  {
    if c != [] {
      var init := c[..|c| - 1];
      if Among(b, init) {
        AmongAmong(a, b, init);
      } else if Among(a, b[..|b| - 1]) {
        AmongAmong(a, b[..|b| - 1], init);
      } else {
        AmongAmong(a[..|a| - 1], b[..|b| - 1], init);
      }
    }
  }

  /** Files of the dictionary are offered again by their names. */
  lemma {:induction false} OfferedAgain(some: seq<Entry>, files: seq<Entry>)
    requires Among(some, files) && Distinct(files)
    ensures Offered(files, Names(some)) == some
  {
    if files != [] {
      var init, last := files[..|files| - 1], files[|files| - 1];
      if Among(some, init) {
        AmongIn(some, init);
        OfferedAgain(some, init);
        forall i | 0 <= i < |some| ensures some[i].name != last.name {
          assert some[i] in init;
          var j :| 0 <= j < |init| && init[j] == some[i];
          assert files[j] == init[j];
        }
      } else {
        var rest := some[..|some| - 1];
        AmongIn(rest, init);
        OfferedAgain(rest, init);
        assert some == rest + [last];
        assert Names(some) == Names(rest) + [last.name];
        OfferedIgnores(init, Names(rest), last.name);
      }
    }
  }

  lemma {:induction false} OfferedIgnores(files: seq<Entry>, names: seq<string>, other: string)
    requires forall i :: 0 <= i < |files| ==> files[i].name != other
    ensures Offered(files, names + [other]) == Offered(files, names)
  {
    if files != [] {
      OfferedIgnores(files[..|files| - 1], names, other);
    }
  }

  lemma {:induction false} OfferedAll(files: seq<Entry>, names: seq<string>)
    requires forall e :: e in files ==> e.name in names
    ensures Offered(files, names) == files
  {
    if files != [] {
      var init, last := files[..|files| - 1], files[|files| - 1];
      assert files == init + [last];
      OfferedAll(init, names);
    }
  }

  /** The passes made over what the passes before have left. */
  function Passes(k: nat, prompt: nat, maxTokens: int, offered: seq<Entry>): (r: seq<Pass>)
    ensures |r| == k
  {
    if k == 0 then []
    else
      var p := PassOver(prompt, maxTokens, offered);
      [p] + Passes(k - 1, prompt, maxTokens, p.remaining)
  }

  function Left(k: nat, prompt: nat, maxTokens: int, offered: seq<Entry>): seq<Entry> {
    if k == 0 then offered else Left(k - 1, prompt, maxTokens, PassOver(prompt, maxTokens, offered).remaining)
  }

  /** The patch lists of the passes that place something. */
  function Filled(passes: seq<Pass>): seq<seq<Entry>> {
    if passes == [] then []
    else (if passes[0].included != [] then [passes[0].included] else []) + Filled(passes[1..])
  }

  function AllOf(lists: seq<seq<Entry>>): seq<Entry> {
    if lists == [] then [] else lists[0] + AllOf(lists[1..])
  }

  function AllIncluded(passes: seq<Pass>): seq<Entry> {
    if passes == [] then [] else passes[0].included + AllIncluded(passes[1..])
  }

  /** The lists hold what the passes include, in order, and none of them is empty. */
  lemma {:induction false} FilledExactly(passes: seq<Pass>)
    ensures AllOf(Filled(passes)) == AllIncluded(passes)
    ensures forall i :: 0 <= i < |Filled(passes)| ==> Filled(passes)[i] != []
  {
    if passes != [] {
      var rest := Filled(passes[1..]);
      FilledExactly(passes[1..]);
      if passes[0].included != [] {
        assert ([passes[0].included] + rest)[1..] == rest;
      } else {
        assert [] + rest == rest && [] + AllIncluded(passes[1..]) == AllIncluded(passes[1..]);
      }
    }
  }

  /** The files that passes include, stop or find empty. */
  function Settled(passes: seq<Pass>): multiset<Entry> {
    if passes == [] then multiset{}
    else multiset(passes[0].included) + multiset(passes[0].stopped) + multiset(passes[0].empty) + Settled(passes[1..])
  }

  /** Over all passes: every file is included, stopped or empty in one of them, or left in the end. */
  lemma {:induction false} PassesAccount(k: nat, prompt: nat, maxTokens: int, offered: seq<Entry>)
    ensures multiset(offered) == Settled(Passes(k, prompt, maxTokens, offered)) + multiset(Left(k, prompt, maxTokens, offered))
  {
    if k > 0 {
      var p := PassOver(prompt, maxTokens, offered);
      PassAccounts(prompt, maxTokens, offered);
      PassesAccount(k - 1, prompt, maxTokens, p.remaining);
      SettledStep(p, Passes(k - 1, prompt, maxTokens, p.remaining));
      SumUp(multiset(p.included), multiset(p.remaining), multiset(p.stopped), multiset(p.empty),
            Settled(Passes(k - 1, prompt, maxTokens, p.remaining)), multiset(Left(k - 1, prompt, maxTokens, p.remaining)));
    }
  }

  lemma {:induction false} SettledStep(p: Pass, passes: seq<Pass>)
    ensures Settled([p] + passes) == multiset(p.included) + multiset(p.stopped) + multiset(p.empty) + Settled(passes)
  {
    assert ([p] + passes)[1..] == passes;
  }

  lemma {:induction false} SumUp<T>(a: multiset<T>, r: multiset<T>, b: multiset<T>, c: multiset<T>, d: multiset<T>,
                                    left: multiset<T>)
    requires r == d + left
    ensures a + r + b + c == a + b + c + d + left
  {
  }

  lemma {:induction false} NoMorePasses(k: nat, prompt: nat, maxTokens: int)
    ensures Filled(Passes(k, prompt, maxTokens, [])) == [] && Left(k, prompt, maxTokens, []) == []
  {
    if k > 0 {
      NoMorePasses(k - 1, prompt, maxTokens);
    }
  }

  /** What so many passes come to. The first list is kept even if it is empty, the others only if not. */
  ghost predicate Ran(count: nat, prompt: nat, maxTokens: int, files: seq<Entry>, patchLists: seq<seq<Entry>>,
                      remaining: seq<string>)
    requires count > 0
  {
    var passes := Passes(count, prompt, maxTokens, files);
    && patchLists == [passes[0].included] + Filled(passes[1..])
    && remaining == Names(Left(count, prompt, maxTokens, files))
  }

  /** The passes after the first. */
  method LaterPasses(files: seq<Entry>, maxTokens: int, prompt: nat, count: nat, patchLists0: seq<seq<Entry>>,
                     remaining0: seq<string>, ghost left0: seq<Entry>)
    returns (patchLists: seq<seq<Entry>>, remaining: seq<string>)
    requires Distinct(files) && Among(left0, files) && remaining0 == Names(left0)
    ensures patchLists == patchLists0 + Filled(Passes(count, prompt, maxTokens, left0))
    ensures remaining == Names(Left(count, prompt, maxTokens, left0))
  {
    patchLists, remaining := patchLists0, remaining0;
    ghost var left := left0;
    ghost var goal := patchLists0 + Filled(Passes(count, prompt, maxTokens, left0));
    ghost var rest := Left(count, prompt, maxTokens, left0);
    var i := 0;
    while i < count
      invariant 0 <= i <= count
      invariant Among(left, files) && remaining == Names(left)
      invariant patchLists + Filled(Passes(count - i, prompt, maxTokens, left)) == goal
      invariant Left(count - i, prompt, maxTokens, left) == rest
    {
      if remaining == [] {
        NoMorePasses(count - i, prompt, maxTokens);
        assert left == [];
        break;
      }
      OfferedAgain(left, files);
      var _, patches, still, _ := GenerateFullPatch(files, maxTokens, remaining, prompt);
      ghost var p := PassOver(prompt, maxTokens, left);
      RemainingAmong(prompt, maxTokens, left);
      AmongAmong(p.remaining, left, files);
      FilledStep(patchLists, count - i, prompt, maxTokens, left);
      remaining := still;
      if patches != [] {
        patchLists := patchLists + [patches];
      }
      left := p.remaining;
      i := i + 1;
    }
    if i == count {
      assert patchLists + [] == patchLists;
    }
  }

  /** The passes of `pr_generate_compressed_diff`: one, or for large requests as many as there are calls but one for the
      summary. */
  method CompressedDiff(files: seq<Entry>, listed: seq<string>, maxTokens: int, prompt: nat, large: bool, maxCalls: int)
    returns (patchLists: seq<seq<Entry>>, remaining: seq<string>)
    requires Distinct(files) && forall e :: e in files ==> e.name in listed
    ensures !large || maxCalls <= 2 ==> Ran(1, prompt, maxTokens, files, patchLists, remaining)
    ensures large && maxCalls > 2 ==> Ran(maxCalls - 1, prompt, maxTokens, files, patchLists, remaining)
  {
    OfferedAll(files, listed);
    var _, patches, still, _ := GenerateFullPatch(files, maxTokens, listed, prompt);
    remaining := still;
    patchLists := [patches];
    if large {
      var allowedIterations := maxCalls - 1;
      AmongSelf(files);
      RemainingAmong(prompt, maxTokens, files);
      patchLists, remaining := LaterPasses(files, maxTokens, prompt, if allowedIterations > 1 then allowedIterations - 1 else 0,
                                           patchLists, remaining, PassOver(prompt, maxTokens, files).remaining);
    }
  }

  lemma {:induction false} FilledStep(lists: seq<seq<Entry>>, k: nat, prompt: nat, maxTokens: int, offered: seq<Entry>)
    requires k > 0
    ensures var p := PassOver(prompt, maxTokens, offered);
            lists + Filled(Passes(k, prompt, maxTokens, offered)) ==
            (if p.included != [] then lists + [p.included] else lists) + Filled(Passes(k - 1, prompt, maxTokens, p.remaining))
  {
    var p := PassOver(prompt, maxTokens, offered);
    assert Passes(k, prompt, maxTokens, offered)[1..] == Passes(k - 1, prompt, maxTokens, p.remaining);
  }

  // ---------- first fit ----------

  /** A prompt being filled. */
  datatype Bin = Bin(total: int, files: seq<Entry>) {
    predicate Takes(maxTokens: int, e: Entry) { total + e.raw <= maxTokens - SOFT_THRESHOLD }
    function With(e: Entry): Bin { Bin(total + e.wrapped, files + [e]) }
  }

  /** The first bin that takes a file, or the number of bins. */
  function FirstTaking(bins: seq<Bin>, maxTokens: int, e: Entry): (j: nat)
    ensures j <= |bins| && (j < |bins| ==> bins[j].Takes(maxTokens, e))
    ensures forall i :: 0 <= i < j ==> !bins[i].Takes(maxTokens, e)
  {
    if bins == [] || bins[0].Takes(maxTokens, e) then 0 else 1 + FirstTaking(bins[1..], maxTokens, e)
  }

  /** First fit: one file after the other, each into the first bin that takes it. */
  function FirstFit(bins: seq<Bin>, maxTokens: int, files: seq<Entry>): (seq<Bin>, seq<Entry>)
    decreases |files|
  {
    if files == [] then (bins, [])
    else
      var j := FirstTaking(bins, maxTokens, files[0]);
      if j < |bins| then FirstFit(bins[j := bins[j].With(files[0])], maxTokens, files[1..])
      else
        var (filled, left) := FirstFit(bins, maxTokens, files[1..]);
        (filled, [files[0]] + left)
  }

  /** Filling one bin from a list of files. */
  function FillOne(b: Bin, maxTokens: int, files: seq<Entry>): (Bin, seq<Entry>)
    decreases |files|
  {
    if files == [] then (b, [])
    else if b.Takes(maxTokens, files[0]) then FillOne(b.With(files[0]), maxTokens, files[1..])
    else
      var (full, left) := FillOne(b, maxTokens, files[1..]);
      (full, [files[0]] + left)
  }

  /** One file put by first fit into several bins, seen from the first of them. */
  lemma {:induction false} FirstFitStep(b: Bin, bins: seq<Bin>, maxTokens: int, files: seq<Entry>)
    requires files != []
    ensures var e, j := files[0], FirstTaking(bins, maxTokens, files[0]);
            FirstFit([b] + bins, maxTokens, files) ==
            if b.Takes(maxTokens, e) then FirstFit([b.With(e)] + bins, maxTokens, files[1..])
            else if j < |bins| then FirstFit([b] + bins[j := bins[j].With(e)], maxTokens, files[1..])
            else var (filled, left) := FirstFit([b] + bins, maxTokens, files[1..]); (filled, [e] + left)
  {
    var e, all, j := files[0], [b] + bins, FirstTaking(bins, maxTokens, files[0]);
    assert all[1..] == bins;
    if b.Takes(maxTokens, e) {
      assert all[0 := b.With(e)] == [b.With(e)] + bins;
    } else {
      assert FirstTaking(all, maxTokens, e) == 1 + j;
      if j < |bins| {
        assert all[1 + j := all[1 + j].With(e)] == [b] + bins[j := bins[j].With(e)];
      }
    }
  }

  /** First fit over several bins fills the first bin from all files, and the other bins from what that leaves. */
  lemma {:induction false} Interchange(b: Bin, bins: seq<Bin>, maxTokens: int, files: seq<Entry>)
    ensures var (full, left) := FillOne(b, maxTokens, files);
            var (others, rest) := FirstFit(bins, maxTokens, left);
            FirstFit([b] + bins, maxTokens, files) == ([full] + others, rest)
    decreases |files|
  {
    if files != [] {
      var e := files[0];
      FirstFitStep(b, bins, maxTokens, files);
      if b.Takes(maxTokens, e) {
        Interchange(b.With(e), bins, maxTokens, files[1..]);
      } else {
        var j := FirstTaking(bins, maxTokens, e);
        Interchange(b, if j < |bins| then bins[j := bins[j].With(e)] else bins, maxTokens, files[1..]);
      }
    }
  }

  /** Files with patches whose wrapping fits between the two thresholds. */
  ghost predicate Ordinary(files: seq<Entry>) {
    forall e :: e in files ==> e.hasPatch && e.wrapped - e.raw <= SOFT_THRESHOLD - HARD_THRESHOLD
  }

  lemma {:induction false} FillOneSnoc(b: Bin, maxTokens: int, files: seq<Entry>, e: Entry)
    ensures var (full, left) := FillOne(b, maxTokens, files);
            FillOne(b, maxTokens, files + [e]) ==
            if full.Takes(maxTokens, e) then (full.With(e), left) else (full, left + [e])
    decreases |files|
  {
    if files == [] {
      assert files + [e] == [e] && [e][1..] == [];
      assert [e] + [] == [e] == [] + [e];
      assert FillOne(b.With(e), maxTokens, []) == (b.With(e), []);
    } else {
      assert (files + [e])[0] == files[0] && (files + [e])[1..] == files[1..] + [e];
      if b.Takes(maxTokens, files[0]) {
        FillOneSnoc(b.With(files[0]), maxTokens, files[1..], e);
      } else {
        FillOneSnoc(b, maxTokens, files[1..], e);
        var (full, left) := FillOne(b, maxTokens, files[1..]);
        assert [files[0]] + (left + [e]) == [files[0]] + left + [e];
      }
    }
  }

  lemma {:induction false} TakeIncludes(p: Pass, maxTokens: int, e: Entry)
    requires p.total <= maxTokens - HARD_THRESHOLD && e.hasPatch
    ensures p.Take(maxTokens, e) ==
            if Bin(p.total, p.included).Takes(maxTokens, e) then p.(included := p.included + [e], total := p.total + e.wrapped)
            else p.(remaining := p.remaining + [e])
  {
  }

  /** One pass over ordinary files fills one prompt as first fit would. */
  lemma {:induction false} PassFillsOne(prompt: nat, maxTokens: int, offered: seq<Entry>)
    requires prompt <= maxTokens - HARD_THRESHOLD && Ordinary(offered)
    ensures var p := PassOver(prompt, maxTokens, offered);
            FillOne(Bin(prompt, []), maxTokens, offered) == (Bin(p.total, p.included), p.remaining)
  {
    if offered != [] {
      var init, e := offered[..|offered| - 1], offered[|offered| - 1];
      assert offered == init + [e] && e in offered && forall x :: x in init ==> x in offered;
      PassFillsOne(prompt, maxTokens, init);
      SmallWrapsStopNothing(prompt, maxTokens, init);
      FillOneSnoc(Bin(prompt, []), maxTokens, init, e);
      TakeIncludes(PassOver(prompt, maxTokens, init), maxTokens, e);
    }
  }

  function Bins(passes: seq<Pass>): (r: seq<Bin>)
    ensures |r| == |passes|
  {
    seq(|passes|, i requires 0 <= i < |passes| => Bin(passes[i].total, passes[i].included))
  }

  function Fresh(k: nat, prompt: nat): seq<Bin> { seq(k, _ => Bin(prompt, [])) }

  /** One pass more. */
  lemma {:induction false} MorePasses(k: nat, prompt: nat, maxTokens: int, files: seq<Entry>)
    ensures var p := PassOver(prompt, maxTokens, files);
            && Fresh(k + 1, prompt) == [Bin(prompt, [])] + Fresh(k, prompt)
            && Bins(Passes(k + 1, prompt, maxTokens, files)) ==
               [Bin(p.total, p.included)] + Bins(Passes(k, prompt, maxTokens, p.remaining))
            && Left(k + 1, prompt, maxTokens, files) == Left(k, prompt, maxTokens, p.remaining)
  {
    var p := PassOver(prompt, maxTokens, files);
    assert Passes(k + 1, prompt, maxTokens, files) == [p] + Passes(k, prompt, maxTokens, p.remaining);
  }

  lemma {:induction false} RemainingOrdinary(prompt: nat, maxTokens: int, files: seq<Entry>)
    requires Ordinary(files)
    ensures Ordinary(PassOver(prompt, maxTokens, files).remaining)
  {
    RemainingAmong(prompt, maxTokens, files);
    AmongIn(PassOver(prompt, maxTokens, files).remaining, files);
  }

  /** Pass after pass, bin by bin, gives the same prompts and the same leftovers as first fit, file by file. */
  lemma {:induction false} PassesAreFirstFit(k: nat, prompt: nat, maxTokens: int, files: seq<Entry>)
    requires prompt <= maxTokens - HARD_THRESHOLD && Ordinary(files)
    ensures FirstFit(Fresh(k, prompt), maxTokens, files) ==
            (Bins(Passes(k, prompt, maxTokens, files)), Left(k, prompt, maxTokens, files))
  {
    if k == 0 {
      NoBins(maxTokens, files);
    } else {
      RemainingOrdinary(prompt, maxTokens, files);
      PassesAreFirstFit(k - 1, prompt, maxTokens, PassOver(prompt, maxTokens, files).remaining);
      PassFillsOne(prompt, maxTokens, files);
      Interchange(Bin(prompt, []), Fresh(k - 1, prompt), maxTokens, files);
      MorePasses(k - 1, prompt, maxTokens, files);
    }
  }

  lemma {:induction false} NoBins(maxTokens: int, files: seq<Entry>)
    ensures FirstFit([], maxTokens, files) == ([], files)
  {
    if files != [] {
      NoBins(maxTokens, files[1..]);
      assert [files[0]] + files[1..] == files;
    }
  }
}
