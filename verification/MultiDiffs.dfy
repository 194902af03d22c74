/** Splitting a request into several prompts (`get_pr_multi_diffs`): next fit with a limit on the number of prompts. */
module MultiDiffs {
  import opened PyText
  import opened TokenPacking

  datatype Patch = Patch(text: string, tokens: nat)

  datatype Policy = Skip | Clip | Other

  /** A file: whether it has a patch, what handling deletions and decorating leaves of it, and what clipping that gives. */
  datatype FileIn = FileIn(name: string, hasPatch: bool, left: Option<Patch>, clipped: Patch)

  /** A patch with the name of its file. */
  datatype Piece = Piece(name: string, patch: Patch)

  /** The tokens a prompt has for patches. */
  function Budget(maxTokens: int, prompt: nat): int { maxTokens - SOFT_THRESHOLD - prompt }

  /** The patch of a file that is to be placed, if there is one: an oversized patch is skipped or clipped. */
  function Prepared(f: FileIn, budget: int, policy: Policy): (r: Option<Patch>)
    ensures r.Some? ==> r.value.text != "" && r.value.tokens <= budget
  {
    if !f.hasPatch || f.left.None? || f.left.value.text == "" then None
    else if f.left.value.tokens <= budget then f.left
    else if policy.Clip? && f.clipped.text != "" && f.clipped.tokens <= budget then Some(f.clipped)
    else None
  }

  /** Something is left of the patch of the file. */
  predicate HasText(f: FileIn) { f.hasPatch && f.left.Some? && f.left.value.text != "" }

  /** The patch is used as it is. */
  predicate FitsWhole(f: FileIn, room: int) { HasText(f) && f.left.value.tokens <= room }

  /** The patch is too large and is used clipped. */
  predicate FitsClipped(f: FileIn, room: int, policy: Policy) {
    && HasText(f) && f.left.value.tokens > room
    && policy == Clip && f.clipped.text != "" && f.clipped.tokens <= room
  }

  /** What is used of a file, case by case. */
  lemma {:induction false} PreparedExactly(f: FileIn, room: int, policy: Policy)
    ensures FitsWhole(f, room) ==> Prepared(f, room, policy) == f.left
    ensures FitsClipped(f, room, policy) ==> Prepared(f, room, policy) == Some(f.clipped)
    ensures !FitsWhole(f, room) && !FitsClipped(f, room, policy) ==> Prepared(f, room, policy) == None
  {
  }

  /** The pieces to be placed, in order. */
  function Survivors(files: seq<FileIn>, budget: int, policy: Policy): seq<Piece> {
    if files == [] then []
    else
      var f := files[|files| - 1];
      var p := Prepared(f, budget, policy);
      Survivors(files[..|files| - 1], budget, policy) + (if p.Some? then [Piece(f.name, p.value)] else [])
  }

  function Sum(pieces: seq<Piece>): nat {
    if pieces == [] then 0 else Sum(pieces[..|pieces| - 1]) + pieces[|pieces| - 1].patch.tokens
  }

  function Concat(chunks: seq<seq<Piece>>): seq<Piece> {
    if chunks == [] then [] else Concat(chunks[..|chunks| - 1]) + chunks[|chunks| - 1]
  }

  /** Every chunk has patches, and they are within the budget. */
  ghost predicate WithinBudget(chunks: seq<seq<Piece>>, budget: int) {
    forall c :: 0 <= c < |chunks| ==> chunks[c] != [] && Sum(chunks[c]) <= budget
  }

  /** A chunk that cannot take the first patch of the next. */
  predicate Refuses(chunk: seq<Piece>, next: seq<Piece>, budget: int) {
    next != [] ==> Sum(chunk) + next[0].patch.tokens > budget
  }

  /** No chunk could have taken the first patch of the next. */
  ghost predicate Greedy(chunks: seq<seq<Piece>>, budget: int) {
    forall c :: 0 <= c < |chunks| - 1 ==> Refuses(chunks[c], chunks[c + 1], budget)
  }

  /** The chunks made so far and the one being filled. */
  ghost function WithOpen(chunks: seq<seq<Piece>>, open: seq<Piece>): seq<seq<Piece>> {
    if open == [] then chunks else chunks + [open]
  }

  lemma {:induction false} SumSnoc(pieces: seq<Piece>, p: Piece)
    ensures Sum(pieces + [p]) == Sum(pieces) + p.patch.tokens
  {
    assert (pieces + [p])[..|pieces|] == pieces;
  }

  lemma {:induction false} ConcatSnoc(chunks: seq<seq<Piece>>, c: seq<Piece>)
    ensures Concat(chunks + [c]) == Concat(chunks) + c
  {
    assert (chunks + [c])[..|chunks|] == chunks;
  }

  /** Survivors of the first files are the first survivors. */
  lemma {:induction false} SurvivorsPrefix(files: seq<FileIn>, i: nat, budget: int, policy: Policy)
    requires i <= |files|
    ensures Survivors(files[..i], budget, policy) <= Survivors(files, budget, policy)
  {
    if i == |files| {
      assert files[..i] == files;
    } else {
      var init := files[..|files| - 1];
      SurvivorsPrefix(init, i, budget, policy);
      assert init[..i] == files[..i];
    }
  }

  /** The piece of a file, if there is one. */
  function PieceOf(f: FileIn, budget: int, policy: Policy): seq<Piece> {
    var p := Prepared(f, budget, policy);
    if p.Some? then [Piece(f.name, p.value)] else []
  }

  lemma {:induction false} SurvivorsStep(files: seq<FileIn>, i: nat, budget: int, policy: Policy)
    requires i < |files|
    ensures Survivors(files[..i + 1], budget, policy) == Survivors(files[..i], budget, policy) + PieceOf(files[i], budget, policy)
  {
    assert files[..i + 1][..i] == files[..i];
  }

  /** The pieces come in the order of their files. */
  lemma {:induction false} SurvivorsInOrder(a: seq<FileIn>, b: seq<FileIn>, budget: int, policy: Policy)
    ensures Survivors(a + b, budget, policy) == Survivors(a, budget, policy) + Survivors(b, budget, policy)
  {
    if b == [] {
      assert a + b == a;
    } else {
      var init, last := b[..|b| - 1], b[|b| - 1];
      assert (a + b)[..|a + b| - 1] == a + init;
      SurvivorsInOrder(a, init, budget, policy);
      var piece := PieceOf(last, budget, policy);
      assert Survivors(a, budget, policy) + (Survivors(init, budget, policy) + piece)
          == (Survivors(a, budget, policy) + Survivors(init, budget, policy)) + piece;
    }
  }

  /** The pieces placed so far, in chunks that keep to the budget and that nothing before could have taken. */
  ghost predicate Filling(chunks: seq<seq<Piece>>, open: seq<Piece>, budget: int, placed: seq<Piece>) {
    var all := WithOpen(chunks, open);
    WithinBudget(all, budget) && Greedy(all, budget) && Concat(all) == placed
  }

  lemma {:induction false} PlaceBudget(chunks: seq<seq<Piece>>, open: seq<Piece>, p: Piece, budget: int)
    requires WithinBudget(WithOpen(chunks, open), budget) && Sum(open) + p.patch.tokens <= budget
    ensures WithinBudget(WithOpen(chunks, open + [p]), budget)
  {
    var before, after := WithOpen(chunks, open), WithOpen(chunks, open + [p]);
    SumSnoc(open, p);
    forall c | 0 <= c < |after| ensures after[c] != [] && Sum(after[c]) <= budget {
      assert c < |chunks| ==> after[c] == before[c];
    }
  }

  lemma {:induction false} PlaceGreedy(chunks: seq<seq<Piece>>, open: seq<Piece>, p: Piece, budget: int)
    requires Greedy(WithOpen(chunks, open), budget)
    requires open == [] && chunks != [] ==> Sum(chunks[|chunks| - 1]) + p.patch.tokens > budget
    ensures Greedy(WithOpen(chunks, open + [p]), budget)
  {
    var before, after := WithOpen(chunks, open), WithOpen(chunks, open + [p]);
    forall c | 0 <= c < |after| - 1 ensures Refuses(after[c], after[c + 1], budget) {
      if c < |chunks| - 1 {
        assert Refuses(before[c], before[c + 1], budget);
      } else if open != [] {
        assert Refuses(before[c], before[c + 1], budget) && open[0] == (open + [p])[0];
      }
    }
  }

  lemma {:induction false} PlaceConcat(chunks: seq<seq<Piece>>, open: seq<Piece>, p: Piece)
    ensures Concat(WithOpen(chunks, open + [p])) == Concat(WithOpen(chunks, open)) + [p]
  {
    ConcatSnoc(chunks, open);
    ConcatSnoc(chunks, open + [p]);
    assert Concat(chunks) + (open + [p]) == Concat(chunks) + open + [p];
    if open == [] {
      assert Concat(chunks) + [] == Concat(chunks);
    }
  }

  /** Placing one more piece into the open chunk. */
  lemma {:induction false} PlacePiece(chunks: seq<seq<Piece>>, open: seq<Piece>, p: Piece, budget: int,
                                      placed: seq<Piece>)
    requires Filling(chunks, open, budget, placed)
    requires Sum(open) + p.patch.tokens <= budget
    requires open == [] && chunks != [] ==> Sum(chunks[|chunks| - 1]) + p.patch.tokens > budget
    ensures Filling(chunks, open + [p], budget, placed + [p])
    ensures Sum(open + [p]) == Sum(open) + p.patch.tokens
  {
    SumSnoc(open, p);
    PlaceBudget(chunks, open, p, budget);
    PlaceGreedy(chunks, open, p, budget);
    PlaceConcat(chunks, open, p);
  }

  /** The patch of one file, clipped or skipped if it is too large for any prompt. */
  method Prepare(file: FileIn, maxTokens: int, prompt: nat, policy: Policy) returns (r: Option<Patch>)
    ensures r == Prepared(file, Budget(maxTokens, prompt), policy)
    ensures HasText(file) && prompt + file.left.value.tokens <= maxTokens - 1500 ==> r == file.left
    ensures HasText(file) && prompt + file.left.value.tokens > maxTokens - 1500 ==>
              r == if policy == Clip && file.clipped.text != "" && prompt + file.clipped.tokens <= maxTokens - 1500
                   then Some(file.clipped) else None
    ensures !HasText(file) ==> r == None
  {
    if !file.hasPatch || file.left.None? {
      return None;
    }
    var patch := file.left.value;
    if patch.text != "" && prompt + patch.tokens > maxTokens - SOFT_THRESHOLD {
      if policy.Skip? {
        return None;
      } else if policy.Clip? {
        if file.clipped.text != "" && prompt + file.clipped.tokens > maxTokens - SOFT_THRESHOLD {
          return None;
        }
        patch := file.clipped;
      } else {
        return None;
      }
    }
    r := if patch.text != "" then Some(patch) else None;
  }

  /** What the chunks come to: all pieces, or as many chunks as there are calls, the last of them full. */
  ghost predicate Complete(chunks: seq<seq<Piece>>, all: seq<Piece>, budget: int, limit: nat) {
    && |chunks| <= limit
    && Concat(chunks) <= all
    && (Concat(chunks) == all
        || (|chunks| == limit && (chunks != [] ==>
              Sum(chunks[|chunks| - 1]) + all[|Concat(chunks)|].patch.tokens > budget)))
  }

  /** What the next file adds to the survivors, and where it stands among all of them. */
  lemma {:induction false} StepAll(files: seq<FileIn>, i: nat, budget: int, policy: Policy)
    requires i < |files|
    ensures var all, done, p := Survivors(files, budget, policy), Survivors(files[..i], budget, policy), PieceOf(files[i], budget, policy);
            && Survivors(files[..i + 1], budget, policy) == done + p
            && (p != [] ==> |done| < |all| && all[..|done|] == done && all[|done|] == p[0])
  {
    SurvivorsStep(files, i, budget, policy);
    SurvivorsPrefix(files, i + 1, budget, policy);
  }

  /** The loop's variables with the pieces `placed` so far. */
  ghost predicate Packing(chunks: seq<seq<Piece>>, patches: seq<Piece>, totalTokens: int, callNumber: int,
                          prompt: nat, maxCalls: int, budget: int, placed: seq<Piece>) {
    && totalTokens == prompt + Sum(patches)
    && callNumber == |chunks| + 1
    && (if callNumber > maxCalls then chunks == [] && patches == [] else chunks != [] ==> patches != [])
    && Filling(chunks, patches, budget, placed)
  }

  /** The open chunk cannot take the next piece and is closed. */
  lemma {:induction false} CloseChunk(chunks: seq<seq<Piece>>, open: seq<Piece>, p: Piece, budget: int,
                                      placed: seq<Piece>)
    requires Filling(chunks, open, budget, placed) && open != []
    requires Sum(open) + p.patch.tokens > budget
    ensures Filling(chunks + [open], [], budget, placed)
    ensures Sum((chunks + [open])[|chunks|]) + p.patch.tokens > budget
  {
    assert WithOpen(chunks + [open], []) == WithOpen(chunks, open);
  }

  /** One patch is placed, in the open chunk or in a new one; `full` if that would take a call too many. */
  method PutPatch(chunks0: seq<seq<Piece>>, patches0: seq<Piece>, totalTokens0: int, callNumber0: int, p: Piece,
                  maxTokens: int, prompt: nat, maxCalls: int, ghost placed: seq<Piece>)
    returns (chunks: seq<seq<Piece>>, patches: seq<Piece>, totalTokens: int, callNumber: int, full: bool)
    requires Packing(chunks0, patches0, totalTokens0, callNumber0, prompt, maxCalls, Budget(maxTokens, prompt), placed)
    requires callNumber0 <= maxCalls && p.patch.tokens <= Budget(maxTokens, prompt)
    ensures !full ==> callNumber <= maxCalls
                      && Packing(chunks, patches, totalTokens, callNumber, prompt, maxCalls, Budget(maxTokens, prompt), placed + [p])
    ensures full ==> && Filling(chunks, [], Budget(maxTokens, prompt), placed) && |chunks| == maxCalls && chunks != []
                     && Sum(chunks[|chunks| - 1]) + p.patch.tokens > Budget(maxTokens, prompt)
  {
    ghost var budget := Budget(maxTokens, prompt);
    chunks, patches, totalTokens, callNumber, full := chunks0, patches0, totalTokens0, callNumber0, false;
    if totalTokens + p.patch.tokens > maxTokens - SOFT_THRESHOLD {
      CloseChunk(chunks, patches, p, budget, placed);
      chunks := chunks + [patches];
      patches := [];
      totalTokens := prompt;
      callNumber := callNumber + 1;
      if callNumber > maxCalls {
        full := true;
        return;
      }
    }
    PlacePiece(chunks, patches, p, budget, placed);
    patches := patches + [p];
    totalTokens := totalTokens + p.patch.tokens;
  }

  lemma {:induction false} PieceIs(f: FileIn, budget: int, policy: Policy, patch: Option<Patch>)
    requires patch == Prepared(f, budget, policy)
    ensures PieceOf(f, budget, policy) == if patch.Some? then [Piece(f.name, patch.value)] else []
    ensures patch.Some? ==> patch.value.tokens <= budget
  {
  }

  lemma {:induction false} NothingMore(placed: seq<Piece>)
    ensures placed + [] == placed
  {
  }

  /** One file is packed, if anything of its patch is to be. */
  method PutFile(chunks0: seq<seq<Piece>>, patches0: seq<Piece>, totalTokens0: int, callNumber0: int, file: FileIn,
                 maxTokens: int, prompt: nat, policy: Policy, maxCalls: int, ghost placed: seq<Piece>)
    returns (chunks: seq<seq<Piece>>, patches: seq<Piece>, totalTokens: int, callNumber: int, full: bool)
    requires Packing(chunks0, patches0, totalTokens0, callNumber0, prompt, maxCalls, Budget(maxTokens, prompt), placed)
    requires callNumber0 <= maxCalls
    ensures var budget := Budget(maxTokens, prompt);
            var p := PieceOf(file, budget, policy);
            if full then
              && p != [] && Filling(chunks, [], budget, placed) && |chunks| == maxCalls && chunks != []
              && Sum(chunks[|chunks| - 1]) + p[0].patch.tokens > budget
            else Packing(chunks, patches, totalTokens, callNumber, prompt, maxCalls, budget, placed + p)
  {
    var patch := Prepare(file, maxTokens, prompt, policy);
    PieceIs(file, Budget(maxTokens, prompt), policy, patch);
    if patch.Some? {
      chunks, patches, totalTokens, callNumber, full :=
        PutPatch(chunks0, patches0, totalTokens0, callNumber0, Piece(file.name, patch.value), maxTokens, prompt, maxCalls, placed);
    } else {
      chunks, patches, totalTokens, callNumber, full := chunks0, patches0, totalTokens0, callNumber0, false;
      NothingMore(placed);
    }
  }

  /** No file is left. */
  lemma {:induction false} AllPlaced(chunks: seq<seq<Piece>>, open: seq<Piece>, budget: int, all: seq<Piece>,
                                     limit: nat)
    requires Filling(chunks, open, budget, all)
    requires |chunks| + (if open == [] then 0 else 1) <= limit
    ensures var done := WithOpen(chunks, open);
            WithinBudget(done, budget) && Greedy(done, budget) && Complete(done, all, budget, limit)
  {
  }

  lemma {:induction false} NoCalls(all: seq<Piece>, budget: int)
    ensures WithinBudget([], budget) && Greedy([], budget) && Complete([], all, budget, 0)
  {
  }

  /** The chunks of a request whose files do not fit one prompt. */
  method NextFit(files: seq<FileIn>, maxTokens: int, prompt: nat, policy: Policy, maxCalls: int)
    returns (chunks: seq<seq<Piece>>)
    ensures WithinBudget(chunks, Budget(maxTokens, prompt)) && Greedy(chunks, Budget(maxTokens, prompt))
    ensures Complete(chunks, Survivors(files, Budget(maxTokens, prompt), policy), Budget(maxTokens, prompt), Max(maxCalls, 0))
  {
    ghost var budget := Budget(maxTokens, prompt);
    ghost var placed: seq<Piece> := [];
    var patches: seq<Piece> := [];
    chunks := [];
    var totalTokens, callNumber := prompt, 1;
    var i := 0;
    assert files[..0] == [];
    while i < |files|
      invariant 0 <= i <= |files|
      invariant placed == Survivors(files[..i], budget, policy)
      invariant Packing(chunks, patches, totalTokens, callNumber, prompt, maxCalls, budget, placed)
    {
      if callNumber > maxCalls {
        NoCalls(Survivors(files, budget, policy), budget);
        return;
      }
      SurvivorsStep(files, i, budget, policy);
      var full;
      chunks, patches, totalTokens, callNumber, full :=
        PutFile(chunks, patches, totalTokens, callNumber, files[i], maxTokens, prompt, policy, maxCalls, placed);
      if full {
        FullAt(files, i, budget, policy, chunks);
        return;
      }
      placed := placed + PieceOf(files[i], budget, policy);
      i := i + 1;
    }
    assert files[..i] == files;
    AllPlaced(chunks, patches, budget, placed, Max(maxCalls, 0));
    if patches != [] {
      chunks := chunks + [patches];
    }
  }

  /** At the limit, with a chunk just closed for want of room. */
  lemma {:induction false} LimitReached(chunks: seq<seq<Piece>>, p: Piece, budget: int, placed: seq<Piece>,
                                        all: seq<Piece>)
    requires Filling(chunks, [], budget, placed) && chunks != []
    requires Sum(chunks[|chunks| - 1]) + p.patch.tokens > budget
    requires |placed| < |all| && all[..|placed|] == placed && all[|placed|] == p
    ensures WithinBudget(chunks, budget) && Greedy(chunks, budget) && Complete(chunks, all, budget, |chunks|)
  {
  }

  /** The limit is reached at file i. */
  lemma {:induction false} FullAt(files: seq<FileIn>, i: nat, budget: int, policy: Policy, chunks: seq<seq<Piece>>)
    requires i < |files| && PieceOf(files[i], budget, policy) != []
    requires Filling(chunks, [], budget, Survivors(files[..i], budget, policy)) && chunks != []
    requires Sum(chunks[|chunks| - 1]) + PieceOf(files[i], budget, policy)[0].patch.tokens > budget
    ensures WithinBudget(chunks, budget) && Greedy(chunks, budget)
    ensures Complete(chunks, Survivors(files, budget, policy), budget, |chunks|)
  {
    StepAll(files, i, budget, policy);
    LimitReached(chunks, PieceOf(files[i], budget, policy)[0], budget, Survivors(files[..i], budget, policy),
                 Survivors(files, budget, policy));
  }

  /** `get_pr_multi_diffs`, from the extended patches and from the files in the order they are packed in: one prompt if
      everything fits with room to spare. */
  method GetPrMultiDiffs(extended: seq<Piece>, files: seq<FileIn>, maxTokens: int, prompt: nat, policy: Policy,
                         maxCalls: int)
    returns (chunks: seq<seq<Piece>>)
    ensures if prompt + Sum(extended) + SOFT_THRESHOLD < maxTokens
            then chunks == (if extended != [] then [extended] else [])
            else WithinBudget(chunks, Budget(maxTokens, prompt)) && Greedy(chunks, Budget(maxTokens, prompt))
                 && Complete(chunks, Survivors(files, Budget(maxTokens, prompt), policy), Budget(maxTokens, prompt), Max(maxCalls, 0))
    ensures WithinBudget(chunks, Budget(maxTokens, prompt)) && Greedy(chunks, Budget(maxTokens, prompt))
  {
    if prompt + Sum(extended) + SOFT_THRESHOLD < maxTokens {
      chunks := if extended != [] then [extended] else [];
    } else {
      chunks := NextFit(files, maxTokens, prompt, policy, maxCalls);
    }
  }

  // ---------- how many chunks ----------

  lemma {:induction false} SumConcat(a: seq<Piece>, b: seq<Piece>)
    ensures Sum(a + b) == Sum(a) + Sum(b)
  {
    if b == [] {
      assert a + b == a;
    } else {
      var init := b[..|b| - 1];
      assert (a + b)[..|a + b| - 1] == a + init;
      SumConcat(a, init);
    }
  }

  /** Neighbouring chunks together are over the budget. */
  lemma {:induction false} NeighboursOver(chunks: seq<seq<Piece>>, budget: int, c: nat)
    requires WithinBudget(chunks, budget) && Greedy(chunks, budget) && c + 1 < |chunks|
    ensures Sum(chunks[c]) + Sum(chunks[c + 1]) > budget
  {
    var next := chunks[c + 1];
    assert Refuses(chunks[c], next, budget) && next != [];
    assert next == [next[0]] + next[1..];
    SumConcat([next[0]], next[1..]);
    SumSnoc([], next[0]);
    assert [] + [next[0]] == [next[0]];
  }

  lemma {:induction false} SumOfOneMore(chunks: seq<seq<Piece>>, last: seq<Piece>)
    ensures Sum(Concat(chunks + [last])) == Sum(Concat(chunks)) + Sum(last)
  {
    SumConcat(Concat(chunks), last);
  }

  lemma {:induction false} LastTwo<T>(s: seq<T>)
    requires |s| >= 2
    ensures s == s[..|s| - 2] + [s[|s| - 2]] + [s[|s| - 1]]
  {
  }

  lemma {:induction false} HalfOfTwoMore(n: nat, x: int)
    requires n >= 2
    ensures (n / 2) * x == ((n - 2) / 2) * x + x && (n < 4 ==> ((n - 2) / 2) * x == 0)
  {
    assert n / 2 == (n - 2) / 2 + 1;
    OneMore((n - 2) / 2, x);
    assert n < 4 ==> (n - 2) / 2 == 0;
  }

  lemma {:induction false} FirstChunks(chunks: seq<seq<Piece>>, budget: int, n: nat)
    requires WithinBudget(chunks, budget) && Greedy(chunks, budget) && n <= |chunks|
    ensures WithinBudget(chunks[..n], budget) && Greedy(chunks[..n], budget)
  {
    forall c | 0 <= c < n - 1 ensures Refuses(chunks[..n][c], chunks[..n][c + 1], budget) {
      assert Refuses(chunks[c], chunks[c + 1], budget);
    }
  }

  /** So pairs of chunks are over the budget, all the more so all chunks. */
  lemma {:induction false} PairsOver(chunks: seq<seq<Piece>>, budget: int)
    requires WithinBudget(chunks, budget) && Greedy(chunks, budget)
    ensures |chunks| >= 2 ==> Sum(Concat(chunks)) > (|chunks| / 2) * budget
  {
    var n := |chunks|;
    if n >= 2 {
      NeighboursOver(chunks, budget, n - 2);
      var init2 := chunks[..n - 2];
      LastTwo(chunks);
      SumOfOneMore(init2, chunks[n - 2]);
      SumOfOneMore(init2 + [chunks[n - 2]], chunks[n - 1]);
      FirstChunks(chunks, budget, n - 2);
      PairsOver(init2, budget);
      HalfOfTwoMore(n, budget);
    }
  }

  lemma {:induction false} SumOfGroups(groups: seq<seq<Piece>>, budget: int)
    requires forall g :: 0 <= g < |groups| ==> Sum(groups[g]) <= budget
    ensures Sum(Concat(groups)) <= |groups| * budget
  {
    if groups != [] {
      var init := groups[..|groups| - 1];
      SumOfGroups(init, budget);
      SumConcat(Concat(init), groups[|groups| - 1]);
      OneMore(|init|, budget);
    }
  }

  lemma {:induction false} CancelOne(a: multiset<Piece>, b: multiset<Piece>, p: Piece)
    requires a + multiset{p} == b + multiset{p}
    ensures a == b
  {
    assert a == (a + multiset{p}) - multiset{p};
    assert b == (b + multiset{p}) - multiset{p};
  }

  /** The pieces without one of them. */
  lemma {:induction false} TakeOut(pieces: seq<Piece>, p: Piece) returns (rest: seq<Piece>)
    requires p in pieces
    ensures multiset(pieces) == multiset(rest) + multiset{p} && Sum(pieces) == Sum(rest) + p.patch.tokens
  {
    var i :| 0 <= i < |pieces| && pieces[i] == p;
    var front, back := pieces[..i], pieces[i + 1..];
    rest := front + back;
    assert pieces == front + [p] + back;
    SumConcat(front + [p], back);
    SumSnoc(front, p);
    SumConcat(front, back);
  }

  /** The sum does not depend on the order. */
  lemma {:induction false} SumReordered(a: seq<Piece>, b: seq<Piece>)
    requires multiset(a) == multiset(b)
    ensures Sum(a) == Sum(b)
  {
    if a == [] {
      assert |multiset(b)| == 0;
    } else {
      var init, p := a[..|a| - 1], a[|a| - 1];
      assert a == init + [p];
      assert p in multiset(b);
      var rest := TakeOut(b, p);
      CancelOne(multiset(init), multiset(rest), p);
      SumReordered(init, rest);
      SumSnoc(init, p);
    }
  }

  lemma {:induction false} SomeGroup(chunks: seq<seq<Piece>>, groups: seq<seq<Piece>>)
    requires |chunks| == 1 && chunks[0] != [] && multiset(Concat(groups)) == multiset(Concat(chunks))
    ensures groups != []
  {
    SomePiece(chunks[0]);
    ConcatSnoc([], chunks[0]);
    assert chunks == [] + [chunks[0]] && [] + chunks[0] == chunks[0];
    assert multiset(Concat(groups)) != multiset{};
  }

  /** Next fit against any other way: if the same pieces can be put into m groups within the budget, in whatever order,
      then the n chunks made of them are at most 2m - 1. */
  lemma {:induction false} NextFitBound(chunks: seq<seq<Piece>>, groups: seq<seq<Piece>>, budget: int)
    requires WithinBudget(chunks, budget) && Greedy(chunks, budget) && chunks != []
    requires forall g :: 0 <= g < |groups| ==> Sum(groups[g]) <= budget
    requires multiset(Concat(groups)) == multiset(Concat(chunks))
    ensures |chunks| <= 2 * |groups| - 1
  {
    if |chunks| >= 2 {
      SumReordered(Concat(groups), Concat(chunks));
      SumOfGroups(groups, budget);
      PairsOver(chunks, budget);
      assert budget >= 0 by { assert Sum(chunks[0]) <= budget; }
      MoreThanHalf(|chunks|, |groups|, budget, Sum(Concat(chunks)));
    } else {
      SomeGroup(chunks, groups);
    }
  }

  lemma {:induction false} GreedySnoc(chunks: seq<seq<Piece>>, c: seq<Piece>, budget: int)
    requires Greedy(chunks, budget) && (chunks != [] ==> Refuses(chunks[|chunks| - 1], c, budget))
    ensures Greedy(chunks + [c], budget)
  {
    var more := chunks + [c];
    forall k | 0 <= k < |more| - 1 ensures Refuses(more[k], more[k + 1], budget) {
      assert k < |chunks| - 1 ==> Refuses(chunks[k], chunks[k + 1], budget);
    }
  }

  // ---------- the calls that are needed ----------

  /** One piece more: in the last chunk if it fits there, or in a new one. */
  function WithPiece(chunks: seq<seq<Piece>>, p: Piece, budget: int): seq<seq<Piece>> {
    if chunks != [] && Sum(chunks[|chunks| - 1]) + p.patch.tokens <= budget
    then chunks[..|chunks| - 1] + [chunks[|chunks| - 1] + [p]]
    else chunks + [[p]]
  }

  /** All pieces packed with no limit on calls. */
  function Packed(all: seq<Piece>, budget: int): seq<seq<Piece>> {
    if all == [] then [] else WithPiece(Packed(all[..|all| - 1], budget), all[|all| - 1], budget)
  }

  lemma {:induction false} PackedSnoc(all: seq<Piece>, p: Piece, budget: int)
    ensures Packed(all + [p], budget) == WithPiece(Packed(all, budget), p, budget)
  {
    assert (all + [p])[..|all|] == all;
  }

  /** The last piece taken out of chunks that are filled greedily. */
  function Shorter(chunks: seq<seq<Piece>>): seq<seq<Piece>>
    requires chunks != [] && chunks[|chunks| - 1] != []
  {
    var init, last := chunks[..|chunks| - 1], chunks[|chunks| - 1];
    if |last| == 1 then init else init + [last[..|last| - 1]]
  }

  lemma {:induction false} ShorterIsGreedy(chunks: seq<seq<Piece>>, budget: int)
    requires WithinBudget(chunks, budget) && Greedy(chunks, budget) && chunks != []
    ensures WithinBudget(Shorter(chunks), budget) && Greedy(Shorter(chunks), budget)
  {
    var init, last, less := chunks[..|chunks| - 1], chunks[|chunks| - 1], Shorter(chunks);
    forall c | 0 <= c < |less| ensures less[c] != [] && Sum(less[c]) <= budget {
      assert chunks[c] != [] && Sum(chunks[c]) <= budget;
    }
    forall c | 0 <= c < |less| - 1 ensures Refuses(less[c], less[c + 1], budget) {
      assert Refuses(chunks[c], chunks[c + 1], budget);
    }
  }

  lemma {:induction false} ShorterConcat(chunks: seq<seq<Piece>>)
    requires chunks != [] && chunks[|chunks| - 1] != []
    ensures var all, last := Concat(chunks), chunks[|chunks| - 1];
            all != [] && Concat(Shorter(chunks)) == all[..|all| - 1] && all[|all| - 1] == last[|last| - 1]
  {
    var init, last := chunks[..|chunks| - 1], chunks[|chunks| - 1];
    if |last| > 1 {
      ConcatSnoc(init, last[..|last| - 1]);
    }
    assert last == last[..|last| - 1] + [last[|last| - 1]];
  }

  /** Greedy chunks, and the same without the last piece. */
  lemma {:induction false} PutBack(chunks: seq<seq<Piece>>, budget: int)
    requires WithinBudget(chunks, budget) && Greedy(chunks, budget) && chunks != []
    ensures var last, less := chunks[|chunks| - 1], Shorter(chunks);
            chunks == WithPiece(less, last[|last| - 1], budget)
  {
    var init, last, less := chunks[..|chunks| - 1], chunks[|chunks| - 1], Shorter(chunks);
    var p := last[|last| - 1];
    assert chunks == init + [last];
    if |last| == 1 {
      assert last == [p] && (init != [] ==> Refuses(chunks[|chunks| - 2], last, budget));
    } else {
      assert last == last[..|last| - 1] + [p] && less[..|less| - 1] == init;
      SumSnoc(last[..|last| - 1], p);
    }
  }

  /** There is only one way to fill chunks greedily. */
  lemma {:induction false} GreedyIsPacked(chunks: seq<seq<Piece>>, budget: int)
    requires WithinBudget(chunks, budget) && Greedy(chunks, budget)
    ensures chunks == Packed(Concat(chunks), budget)
    decreases |Concat(chunks)|
  {
    if chunks != [] {
      var last, less, all := chunks[|chunks| - 1], Shorter(chunks), Concat(chunks);
      ShorterIsGreedy(chunks, budget);
      ShorterConcat(chunks);
      GreedyIsPacked(less, budget);
      PutBack(chunks, budget);
      PackedSnoc(Concat(less), last[|last| - 1], budget);
      assert all == Concat(less) + [last[|last| - 1]];
    }
  }

  /** Packing more only adds to the last chunk, or adds chunks. */
  lemma {:induction false} PackedGrows(a: seq<Piece>, b: seq<Piece>, budget: int)
    requires a <= b
    ensures var some, more := Packed(a, budget), Packed(b, budget);
            |some| <= |more| && (some != [] ==> some[..|some| - 1] <= more)
  {
    if a == b {
    } else {
      PackedGrows(a, b[..|b| - 1], budget);
    }
  }

  /** The chunks made under a limit are the first of those made without one; so every piece is placed exactly if the limit
      is as many calls as these need. */
  lemma {:induction false} AllPlacedExactly(chunks: seq<seq<Piece>>, all: seq<Piece>, budget: int, limit: nat)
    requires WithinBudget(chunks, budget) && Greedy(chunks, budget) && Complete(chunks, all, budget, limit)
    ensures chunks <= Packed(all, budget)
    ensures Concat(chunks) == all <==> |Packed(all, budget)| <= limit
  {
    GreedyIsPacked(chunks, budget);
    if Concat(chunks) != all {
      OneMoreIsPacked(chunks, all, budget);
    }
  }

  lemma {:induction false} OneMoreIsPacked(chunks: seq<seq<Piece>>, all: seq<Piece>, budget: int)
    requires chunks == Packed(Concat(chunks), budget) && Concat(chunks) < all
    requires chunks != [] ==> Sum(chunks[|chunks| - 1]) + all[|Concat(chunks)|].patch.tokens > budget
    ensures chunks < Packed(all, budget)
  {
    var placed, next := Concat(chunks), all[|Concat(chunks)|];
    PackedSnoc(placed, next, budget);
    PrefixMore(placed, all);
    PackedGrows(placed + [next], all, budget);
    LastDropped(chunks, [next], Packed(all, budget));
  }

  lemma {:induction false} PrefixMore<T>(some: seq<T>, all: seq<T>)
    requires some < all
    ensures some + [all[|some|]] <= all
  {
  }

  lemma {:induction false} LastDropped<T>(some: seq<T>, next: T, all: seq<T>)
    requires |some + [next]| <= |all| && (some + [next])[..|some + [next]| - 1] <= all
    ensures some < all
  {
    assert (some + [next])[..|some + [next]| - 1] == some;
  }

  /** The unlimited chunks keep to the budget, are greedy and hold everything, if each piece fits by itself. */
  lemma {:induction false} PackedIsGreedy(all: seq<Piece>, budget: int)
    requires forall p :: p in all ==> p.patch.tokens <= budget
    ensures WithinBudget(Packed(all, budget), budget) && Greedy(Packed(all, budget), budget)
    ensures Concat(Packed(all, budget)) == all
  {
    if all != [] {
      var init, p := all[..|all| - 1], all[|all| - 1];
      assert all == init + [p] && p in all && forall q :: q in init ==> q in all;
      PackedIsGreedy(init, budget);
      PackOneMore(Packed(init, budget), p, budget);
      PackedSnoc(init, p, budget);
    }
  }

  lemma {:induction false} BudgetSnoc(chunks: seq<seq<Piece>>, c: seq<Piece>, budget: int)
    requires WithinBudget(chunks, budget) && c != [] && Sum(c) <= budget
    ensures WithinBudget(chunks + [c], budget)
  {
  }

  /** Without the last chunk, which takes the same first piece with p as without. */
  lemma {:induction false} LastGrows(init: seq<seq<Piece>>, last: seq<Piece>, p: Piece, budget: int)
    requires WithinBudget(init + [last], budget) && Greedy(init + [last], budget) && Sum(last) + p.patch.tokens <= budget
    ensures WithinBudget(init + [last + [p]], budget) && Greedy(init + [last + [p]], budget)
  {
    var chunks := init + [last];
    assert last == chunks[|init|] && WithinBudget(init, budget) by {
      assert forall c :: 0 <= c < |init| ==> init[c] == chunks[c];
    }
    assert Greedy(init, budget) by {
      forall c | 0 <= c < |init| - 1 ensures Refuses(init[c], init[c + 1], budget) {
        assert Refuses(chunks[c], chunks[c + 1], budget);
      }
    }
    assert init != [] ==> Refuses(chunks[|init| - 1], chunks[|init|], budget);
    SumSnoc(last, p);
    BudgetSnoc(init, last + [p], budget);
    GreedySnoc(init, last + [p], budget);
  }

  lemma {:induction false} PackOneMore(chunks: seq<seq<Piece>>, p: Piece, budget: int)
    requires WithinBudget(chunks, budget) && Greedy(chunks, budget) && p.patch.tokens <= budget
    ensures var more := WithPiece(chunks, p, budget);
            WithinBudget(more, budget) && Greedy(more, budget) && Concat(more) == Concat(chunks) + [p]
  {
    if chunks != [] && Sum(chunks[|chunks| - 1]) + p.patch.tokens <= budget {
      var init, last := chunks[..|chunks| - 1], chunks[|chunks| - 1];
      assert chunks == init + [last];
      LastGrows(init, last, p, budget);
      ConcatSnoc(init, last + [p]);
    } else {
      SumSnoc([], p);
      assert [] + [p] == [p];
      ConcatSnoc(chunks, [p]);
      BudgetSnoc(chunks, [p], budget);
      GreedySnoc(chunks, [p], budget);
    }
  }

  /** The calls needed are at most 2m - 1 if the pieces can be put into m groups within the budget, in whatever order; so
      with as many calls no piece is dropped. */
  lemma {:induction false} NothingDropped(chunks: seq<seq<Piece>>, all: seq<Piece>, groups: seq<seq<Piece>>,
                                          budget: int, limit: nat)
    requires WithinBudget(chunks, budget) && Greedy(chunks, budget) && Complete(chunks, all, budget, limit)
    requires forall p :: p in all ==> p.patch.tokens <= budget
    requires forall g :: 0 <= g < |groups| ==> Sum(groups[g]) <= budget
    requires multiset(Concat(groups)) == multiset(all)
    ensures all != [] ==> |Packed(all, budget)| <= 2 * |groups| - 1
    ensures 2 * |groups| - 1 <= limit ==> Concat(chunks) == all
  {
    PackedIsGreedy(all, budget);
    AllPlacedExactly(chunks, all, budget, limit);
    if all != [] {
      NextFitBound(Packed(all, budget), groups, budget);
    }
  }

  lemma {:induction false} SomePiece(pieces: seq<Piece>)
    requires pieces != []
    ensures multiset(pieces) != multiset{}
  {
    assert pieces[0] in multiset(pieces);
  }

  lemma {:induction false} MoreThanHalf(n: nat, m: nat, x: int, total: int)
    requires x >= 0 && (n / 2) * x < total <= m * x
    ensures n <= 2 * m - 1
  {
    if m <= n / 2 {
      assert false;
    }
  }

  lemma {:induction false} OneMore(n: nat, x: int)
    ensures (n + 1) * x == n * x + x
  {
  }
}
