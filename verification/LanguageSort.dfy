/** Grouping files by the languages of the repository (`sort_files_by_main_languages`), and what becomes of each file on
    its way into the prompts. */
module LanguageSort {
  import opened PyText
  import opened MultiDiffs

  datatype Group = Group(language: string, files: seq<FileIn>)

  /** The part of a name after its last dot, the whole name if it has none. */
  function LastPart(name: string): string {
    if name == "" || name[|name| - 1] == '.' then "" else LastPart(name[..|name| - 1]) + [name[|name| - 1]]
  }

  function Ext(f: FileIn): string { "." + LastPart(f.name) }

  function Where(p: FileIn -> bool, files: seq<FileIn>): seq<FileIn> {
    if files == [] then []
    else Where(p, files[..|files| - 1]) + (if p(files[|files| - 1]) then [files[|files| - 1]] else [])
  }

  /** A test on file names as a test on files. */
  function ByName(valid: string -> bool): FileIn -> bool { (f: FileIn) => valid(f.name) }

  function ExtensionsOf(language: string, known: map<string, seq<string>>): seq<string> {
    if Lower(language) in known then known[Lower(language)] else []
  }

  /** The extensions of each language. */
  function Mains(languages: seq<string>, known: map<string, seq<string>>): (r: seq<seq<string>>)
    ensures |r| == |languages| && forall i :: 0 <= i < |r| ==> r[i] == ExtensionsOf(languages[i], known)
  {
    seq(|languages|, i requires 0 <= i < |languages| => ExtensionsOf(languages[i], known))
  }

  function AllExtensions(mains: seq<seq<string>>): seq<string> {
    if mains == [] then [] else AllExtensions(mains[..|mains| - 1]) + mains[|mains| - 1]
  }

  function HasExt(exts: seq<string>): FileIn -> bool { f => Ext(f) in exts }

  function GroupOf(language: string, own: seq<FileIn>): seq<Group> { if own != [] then [Group(language, own)] else [] }

  /** The groups of the languages that have files, in order. */
  function LanguageGroups(languages: seq<string>, mains: seq<seq<string>>, files: seq<FileIn>): seq<Group>
    requires |languages| == |mains|
  {
    if languages == [] then []
    else
      var n := |languages| - 1;
      LanguageGroups(languages[..n], mains[..n], files) + GroupOf(languages[n], Where(HasExt(mains[n]), files))
  }

  ghost predicate Named(files: seq<FileIn>, name: string) { exists f :: f in files && f.name == name }

  /** The files of no language, the first of each name. */
  ghost function Rest(flat: seq<string>, files: seq<FileIn>): seq<FileIn> {
    if files == [] then []
    else
      var rest, f := Rest(flat, files[..|files| - 1]), files[|files| - 1];
      if Ext(f) !in flat && !Named(rest, f.name) then rest + [f] else rest
  }

  ghost function SortedGroups(languages: seq<string>, known: map<string, seq<string>>, files: seq<FileIn>): seq<Group> {
    var mains := Mains(languages, known);
    if languages == [] then [Group("Other", files)]
    else LanguageGroups(languages, mains, files) + [Group("Other", Rest(AllExtensions(mains), files))]
  }

  lemma {:induction false} RestNames(flat: seq<string>, files: seq<FileIn>)
    ensures forall f :: f in files && Ext(f) !in flat ==> Named(Rest(flat, files), f.name)
  {
    if files != [] {
      var init, last := files[..|files| - 1], files[|files| - 1];
      RestNames(flat, init);
      assert files == init + [last];
      var rest := Rest(flat, init);
      forall f | f in files && Ext(f) !in flat ensures Named(Rest(flat, files), f.name) {
        if f in init {
          var g :| g in rest && g.name == f.name;
          assert g in Rest(flat, files);
        } else if !Named(rest, f.name) {
          assert f in rest + [f];
        }
      }
    }
  }

  lemma {:induction false} ExtensionsIncluded(mains: seq<seq<string>>, i: nat)
    requires i < |mains|
    ensures forall x :: x in mains[i] ==> x in AllExtensions(mains)
  {
    if i < |mains| - 1 {
      ExtensionsIncluded(mains[..|mains| - 1], i);
    }
  }

  /** The files of one language, while the files of no language are collected; `first` for the first language. */
  method CollectFiles(exts: seq<string>, flat: seq<string>, files: seq<FileIn>, rest0: seq<FileIn>, ghost first: bool)
    returns (own: seq<FileIn>, rest: seq<FileIn>)
    requires forall x :: x in exts ==> x in flat
    requires rest0 == if first then [] else Rest(flat, files)
    ensures own == Where(HasExt(exts), files) && rest == Rest(flat, files)
  {
    own, rest := [], rest0;
    RestNames(flat, files);
    for j := 0 to |files|
      invariant own == Where(HasExt(exts), files[..j])
      invariant rest == Rest(flat, if first then files[..j] else files)
    {
      var file := files[j];
      assert files[..j + 1][..j] == files[..j] && files[..j + 1][j] == file;
      if Ext(file) in exts {
        own := own + [file];
      } else {
        assert own + [] == own;
        if !(exists f :: f in rest && f.name == file.name) && Ext(file) !in flat {
          rest := rest + [file];
        }
      }
    }
    assert files[..|files|] == files;
  }

  method Filter(valid: string -> bool, files: seq<FileIn>) returns (kept: seq<FileIn>)
    ensures kept == Where(ByName(valid), files)
  {
    ghost var p := ByName(valid);
    kept := [];
    for j := 0 to |files|
      invariant kept == Where(p, files[..j])
    {
      assert files[..j + 1][..j] == files[..j] && kept + [] == kept;
      if valid(files[j].name) {
        kept := kept + [files[j]];
      }
    }
    assert files[..|files|] == files;
  }

  method CollectExtensions(languages: seq<string>, known: map<string, seq<string>>)
    returns (mainExtensions: seq<seq<string>>, flat: seq<string>)
    ensures mainExtensions == Mains(languages, known) && flat == AllExtensions(mainExtensions)
  {
    mainExtensions, flat := [], [];
    for i := 0 to |languages|
      invariant |mainExtensions| == i && forall k :: 0 <= k < i ==> mainExtensions[k] == ExtensionsOf(languages[k], known)
      invariant flat == AllExtensions(mainExtensions)
    {
      var exts := ExtensionsOf(languages[i], known);
      assert (mainExtensions + [exts])[..i] == mainExtensions;
      mainExtensions := mainExtensions + [exts];
      flat := flat + exts;
    }
  }

  /** One more language: its group comes last, if it has files. */
  lemma {:induction false} OneMoreLanguage(languages: seq<string>, mains: seq<seq<string>>, files: seq<FileIn>, i: nat)
    requires |languages| == |mains| && i < |mains|
    ensures LanguageGroups(languages[..i + 1], mains[..i + 1], files) ==
            LanguageGroups(languages[..i], mains[..i], files) + GroupOf(languages[i], Where(HasExt(mains[i]), files))
  {
    assert languages[..i + 1][..i] == languages[..i] && mains[..i + 1][..i] == mains[..i];
  }

  /** The groups of the main languages, and the files of none of them. */
  method GroupFiles(languages: seq<string>, mainExtensions: seq<seq<string>>, flat: seq<string>, files: seq<FileIn>)
    returns (groups: seq<Group>, rest: seq<FileIn>)
    requires |languages| == |mainExtensions| > 0 && flat == AllExtensions(mainExtensions)
    ensures groups == LanguageGroups(languages, mainExtensions, files) && rest == Rest(flat, files)
  {
    groups, rest := [], [];
    for i := 0 to |languages|
      invariant groups == LanguageGroups(languages[..i], mainExtensions[..i], files)
      invariant rest == if i == 0 then [] else Rest(flat, files)
    {
      ExtensionsIncluded(mainExtensions, i);
      var own;
      own, rest := CollectFiles(mainExtensions[i], flat, files, rest, i == 0);
      OneMoreLanguage(languages, mainExtensions, files, i);
      assert groups + [] == groups;
      if |own| > 0 {
        groups := groups + [Group(languages[i], own)];
      }
    }
    assert languages[..|languages|] == languages && mainExtensions[..|languages|] == mainExtensions;
  }

  /** `languages` come in order of size; `valid` is the test on file names. */
  method SortFiles(languages: seq<string>, known: map<string, seq<string>>, valid: string -> bool, files: seq<FileIn>)
    returns (groups: seq<Group>)
    ensures groups == SortedGroups(languages, known, Where(ByName(valid), files))
    ensures languages == [] ==> groups == [Group("Other", Where(ByName(valid), files))]
  {
    var mainExtensions, flat := CollectExtensions(languages, known);
    var filtered := Filter(valid, files);
    if languages == [] {
      return [Group("Other", filtered)];
    }
    var rest;
    groups, rest := GroupFiles(languages, mainExtensions, flat, filtered);
    groups := groups + [Group("Other", rest)];
  }

  // ---------- the order ----------

  lemma {:induction false} OneMoreChar(init: string, part: string, c: char)
    requires |part| <= |init| && part == init[|init| - |part|..]
    ensures part + [c] == (init + [c])[|init| - |part|..]
  {
  }

  /** The extension is what follows the last dot. */
  lemma {:induction false} LastPartExactly(name: string)
    ensures var part := LastPart(name);
            && '.' !in part && |part| <= |name| && part == name[|name| - |part|..]
            && (|part| < |name| ==> name[|name| - |part| - 1] == '.')
  {
    if name != "" && name[|name| - 1] != '.' {
      var init := name[..|name| - 1];
      LastPartExactly(init);
      OneMoreChar(init, LastPart(init), name[|name| - 1]);
      assert name == init + [name[|name| - 1]];
    }
  }

  ghost predicate Ascending(at: seq<nat>, n: nat) {
    (forall i, j :: 0 <= i < j < |at| ==> at[i] < at[j]) && forall i :: 0 <= i < |at| ==> at[i] < n
  }

  lemma {:induction false} AscendingSnoc(at: seq<nat>, n: nat)
    requires Ascending(at, n)
    ensures Ascending(at, n + 1) && Ascending(at + [n], n + 1)
  {
  }

  /** The files that pass a test, each at its place, in order. */
  ghost predicate InOrder(p: FileIn -> bool, files: seq<FileIn>, some: seq<FileIn>, at: seq<nat>) {
    && |at| == |some| && Ascending(at, |files|)
    && (forall i :: 0 <= i < |at| ==> some[i] == files[at[i]] && p(some[i]))
    && forall k :: 0 <= k < |files| && p(files[k]) ==> k in at
  }

  lemma {:induction false} InOrderSnoc(p: FileIn -> bool, files: seq<FileIn>, last: FileIn, some: seq<FileIn>,
                                       at: seq<nat>)
    requires InOrder(p, files, some, at)
    ensures if p(last) then InOrder(p, files + [last], some + [last], at + [|files|])
            else InOrder(p, files + [last], some, at)
  {
    var all := files + [last];
    AscendingSnoc(at, |files|);
    assert all[|files|] == last;
    forall k | 0 <= k < |all| && p(all[k]) ensures k in at + [|files|] && (k < |files| ==> k in at) {
      assert k < |files| ==> p(files[k]);
      assert (at + [|files|])[|at|] == |files|;
    }
  }

  lemma {:induction false} WhereInOrder(p: FileIn -> bool, files: seq<FileIn>) returns (at: seq<nat>)
    ensures InOrder(p, files, Where(p, files), at)
  {
    if files == [] {
      at := [];
    } else {
      var init, last := files[..|files| - 1], files[|files| - 1];
      at := WhereInOrder(p, init);
      InOrderSnoc(p, init, last, Where(p, init), at);
      assert files == init + [last] && Where(p, init) + [] == Where(p, init);
      if p(last) {
        at := at + [|init|];
      }
    }
  }

  /** The groups of the languages from the first to the last, each with its files, none left out that has any. */
  ghost predicate GroupsInOrder(languages: seq<string>, mains: seq<seq<string>>, files: seq<FileIn>, groups: seq<Group>,
                                at: seq<nat>)
    requires |languages| == |mains|
  {
    && |at| == |groups| && Ascending(at, |languages|)
    && (forall i :: 0 <= i < |at| ==>
          groups[i] == Group(languages[at[i]], Where(HasExt(mains[at[i]]), files)) && groups[i].files != [])
    && forall k :: 0 <= k < |languages| && Where(HasExt(mains[k]), files) != [] ==> k in at
  }

  lemma {:induction false} GroupsSnoc(languages: seq<string>, mains: seq<seq<string>>, files: seq<FileIn>,
                                      groups: seq<Group>, at: seq<nat>, n: nat, own: seq<FileIn>)
    requires |languages| == |mains| == n + 1 && own == Where(HasExt(mains[n]), files)
    requires GroupsInOrder(languages[..n], mains[..n], files, groups, at)
    ensures if own == [] then GroupsInOrder(languages, mains, files, groups, at)
            else GroupsInOrder(languages, mains, files, groups + [Group(languages[n], own)], at + [n])
  {
    AscendingSnoc(at, n);
    assert forall i :: 0 <= i < |at| ==> languages[..n][at[i]] == languages[at[i]] && mains[..n][at[i]] == mains[at[i]];
    forall k | 0 <= k < n && Where(HasExt(mains[k]), files) != [] ensures k in at && k in at + [n] {
      assert mains[..n][k] == mains[k];
    }
    assert (at + [n])[|at|] == n;
  }

  lemma {:induction false} LanguagesInOrder(languages: seq<string>, mains: seq<seq<string>>, files: seq<FileIn>)
    returns (at: seq<nat>)
    requires |languages| == |mains|
    ensures GroupsInOrder(languages, mains, files, LanguageGroups(languages, mains, files), at)
  {
    if languages == [] {
      at := [];
    } else {
      var n := |languages| - 1;
      var own := Where(HasExt(mains[n]), files);
      var groups := LanguageGroups(languages[..n], mains[..n], files);
      at := LanguagesInOrder(languages[..n], mains[..n], files);
      GroupsSnoc(languages, mains, files, groups, at, n, own);
      assert groups + [] == groups;
      if own != [] {
        at := at + [n];
      }
    }
  }

  lemma {:induction false} RestUnclaimed(flat: seq<string>, files: seq<FileIn>)
    ensures forall f :: f in Rest(flat, files) ==> f in files && Ext(f) !in flat
  {
    if files != [] {
      RestUnclaimed(flat, files[..|files| - 1]);
    }
  }

  /** A file of a main language: what follows the last dot of its name, with a dot, is one of the extensions known for the
      language, whatever letters its name is written in. */
  predicate IsOf(f: FileIn, language: string, known: map<string, seq<string>>) {
    Lower(language) in known && "." + LastPart(f.name) in known[Lower(language)]
  }

  lemma {:induction false} WhereHas(p: FileIn -> bool, files: seq<FileIn>)
    ensures forall f :: f in Where(p, files) <==> f in files && p(f)
  {
    if files != [] {
      var init, last := files[..|files| - 1], files[|files| - 1];
      assert files == init + [last];
      WhereHas(p, init);
    }
  }

  ghost predicate DistinctNames(files: seq<FileIn>) {
    forall i, j :: 0 <= i < j < |files| ==> files[i].name != files[j].name
  }

  lemma {:induction false} DistinctSnoc(files: seq<FileIn>, f: FileIn)
    requires DistinctNames(files) && !Named(files, f.name)
    ensures DistinctNames(files + [f])
  {
    forall i | 0 <= i < |files| ensures files[i].name != f.name {
      assert files[i] in files;
    }
  }

  lemma {:induction false} RestDistinct(flat: seq<string>, files: seq<FileIn>)
    ensures DistinctNames(Rest(flat, files))
  {
    if files != [] {
      var rest, f := Rest(flat, files[..|files| - 1]), files[|files| - 1];
      RestDistinct(flat, files[..|files| - 1]);
      if !Named(rest, f.name) {
        DistinctSnoc(rest, f);
      }
    }
  }

  /** The groups of the main languages come in the order of these, each with the files of its language; last of all, as
      "Other", come the files of none, one of each name. */
  lemma {:induction false} RestComesLast(languages: seq<string>, known: map<string, seq<string>>, files: seq<FileIn>)
    returns (at: seq<nat>)
    requires languages != []
    ensures var groups, n := SortedGroups(languages, known, files), |SortedGroups(languages, known, files)| - 1;
            && n >= 0 && groups[n].language == "Other"
            && GroupsInOrder(languages, Mains(languages, known), files, groups[..n], at)
            && DistinctNames(groups[n].files)
    ensures var groups, n := SortedGroups(languages, known, files), |SortedGroups(languages, known, files)| - 1;
            && (forall f :: f in groups[n].files ==>
                  f in files && forall i :: 0 <= i < |languages| ==> !IsOf(f, languages[i], known))
            && (forall f :: f in files && (forall i :: 0 <= i < |languages| ==> !IsOf(f, languages[i], known)) ==>
                  Named(groups[n].files, f.name))
  {
    var mains := Mains(languages, known);
    var flat := AllExtensions(mains);
    at := LanguagesInOrder(languages, mains, files);
    RestUnclaimed(flat, files);
    RestDistinct(flat, files);
    RestNames(flat, files);
    var groups := SortedGroups(languages, known, files);
    assert groups[..|groups| - 1] == LanguageGroups(languages, mains, files);
    assert groups[|groups| - 1].files == Rest(flat, files);
    forall f: FileIn ensures Ext(f) !in flat <==> forall i :: 0 <= i < |languages| ==> !IsOf(f, languages[i], known) {
      UnclaimedExactly(languages, known, f);
    }
  }

  lemma {:induction false} UnclaimedExactly(languages: seq<string>, known: map<string, seq<string>>, f: FileIn)
    ensures Ext(f) !in AllExtensions(Mains(languages, known)) <==>
            forall i :: 0 <= i < |languages| ==> !IsOf(f, languages[i], known)
  {
    var mains := Mains(languages, known);
    assert forall i :: 0 <= i < |languages| ==> (IsOf(f, languages[i], known) <==> Ext(f) in mains[i]);
    if Ext(f) in AllExtensions(mains) {
      ClaimedBy(mains, Ext(f));
    } else {
      forall i | 0 <= i < |mains| ensures Ext(f) !in mains[i] {
        ExtensionsIncluded(mains, i);
      }
    }
  }

  lemma {:induction false} ClaimedBy(mains: seq<seq<string>>, ext: string)
    requires ext in AllExtensions(mains)
    ensures exists i :: 0 <= i < |mains| && ext in mains[i]
  {
    var n := |mains| - 1;
    if ext in mains[n] {
      assert 0 <= n < |mains| && ext in mains[n];
    } else {
      ClaimedBy(mains[..n], ext);
      var i :| 0 <= i < n && ext in mains[..n][i];
      assert ext in mains[i];
    }
  }

  /** A group holds the files of its language. */
  lemma {:induction false} GroupHolds(languages: seq<string>, known: map<string, seq<string>>, files: seq<FileIn>,
                                      i: nat, f: FileIn)
    requires i < |languages|
    ensures f in Where(HasExt(Mains(languages, known)[i]), files) <==> f in files && IsOf(f, languages[i], known)
  {
    WhereHas(HasExt(Mains(languages, known)[i]), files);
  }

  // ---------- every kept file once ----------

  function FilesOf(groups: seq<Group>): seq<FileIn> {
    if groups == [] then [] else FilesOf(groups[..|groups| - 1]) + groups[|groups| - 1].files
  }

  /** The number of languages that claim an extension. */
  function Claims(mains: seq<seq<string>>, ext: string): nat {
    if mains == [] then 0 else Claims(mains[..|mains| - 1], ext) + (if ext in mains[|mains| - 1] then 1 else 0)
  }

  lemma {:induction false} ClaimedIsFlat(mains: seq<seq<string>>, ext: string)
    ensures Claims(mains, ext) > 0 <==> ext in AllExtensions(mains)
  {
    if mains != [] {
      ClaimedIsFlat(mains[..|mains| - 1], ext);
    }
  }

  lemma {:induction false} WhereCounts(p: FileIn -> bool, files: seq<FileIn>, f: FileIn)
    ensures multiset(Where(p, files))[f] == if p(f) then multiset(files)[f] else 0
  {
    if files != [] {
      var init, last := files[..|files| - 1], files[|files| - 1];
      assert files == init + [last];
      WhereCounts(p, init, f);
    }
  }

  lemma {:induction false} FilesOfSnoc(groups: seq<Group>, g: Group)
    ensures FilesOf(groups + [g]) == FilesOf(groups) + g.files
  {
    assert (groups + [g])[..|groups|] == groups;
  }

  lemma {:induction false} OneMoreGroup(groups: seq<Group>, language: string, own: seq<FileIn>, f: FileIn)
    ensures multiset(FilesOf(groups + GroupOf(language, own)))[f] == multiset(FilesOf(groups))[f] + multiset(own)[f]
  {
    if own != [] {
      FilesOfSnoc(groups, Group(language, own));
    } else {
      assert groups + [] == groups;
    }
  }

  /** m, c times over. */
  function Times(m: nat, c: nat): nat { if c == 0 then 0 else Times(m, c - 1) + m }

  lemma {:induction false} TimesOneMore(m: nat, c: nat, claimed: bool)
    ensures Times(m, c + (if claimed then 1 else 0)) == Times(m, c) + (if claimed then m else 0)
  {
  }

  /** A file of the extension ext that comes m times does so among the files of each language that claims it. */
  ghost predicate Comes(files: seq<FileIn>, f: FileIn, ext: string, m: nat) {
    forall exts :: multiset(Where(HasExt(exts), files))[f] == if ext in exts then m else 0
  }

  lemma {:induction false} FileComes(files: seq<FileIn>, f: FileIn)
    ensures Comes(files, f, Ext(f), multiset(files)[f])
  {
    forall exts ensures multiset(Where(HasExt(exts), files))[f] == if Ext(f) in exts then multiset(files)[f] else 0 {
      WhereCounts(HasExt(exts), files, f);
    }
  }

  /** The last language, with the counts of its group. */
  lemma {:induction false} GroupsUnfold(languages: seq<string>, mains: seq<seq<string>>, files: seq<FileIn>, f: FileIn)
    requires |languages| == |mains| && languages != []
    ensures var n := |languages| - 1;
            multiset(FilesOf(LanguageGroups(languages, mains, files)))[f] ==
            multiset(FilesOf(LanguageGroups(languages[..n], mains[..n], files)))[f] + multiset(Where(HasExt(mains[n]), files))[f]
  {
    var n := |languages| - 1;
    OneMoreGroup(LanguageGroups(languages[..n], mains[..n], files), languages[n], Where(HasExt(mains[n]), files), f);
  }

  lemma {:induction false} GroupsCountStep(languages: seq<string>, mains: seq<seq<string>>, files: seq<FileIn>,
                                           f: FileIn, ext: string, m: nat)
    requires |languages| == |mains| && languages != [] && Comes(files, f, ext, m)
    requires var n := |languages| - 1;
             multiset(FilesOf(LanguageGroups(languages[..n], mains[..n], files)))[f] == Times(m, Claims(mains[..n], ext))
    ensures multiset(FilesOf(LanguageGroups(languages, mains, files)))[f] == Times(m, Claims(mains, ext))
  {
    var n := |languages| - 1;
    GroupsUnfold(languages, mains, files, f);
    TimesOneMore(m, Claims(mains[..n], ext), ext in mains[n]);
  }

  lemma {:induction false} GroupsCount(languages: seq<string>, mains: seq<seq<string>>, files: seq<FileIn>,
                                       f: FileIn, ext: string, m: nat)
    requires |languages| == |mains| && Comes(files, f, ext, m)
    ensures multiset(FilesOf(LanguageGroups(languages, mains, files)))[f] == Times(m, Claims(mains, ext))
  {
    if languages != [] {
      GroupsCount(languages[..|languages| - 1], mains[..|languages| - 1], files, f, ext, m);
      GroupsCountStep(languages, mains, files, f, ext, m);
    }
  }

  lemma {:induction false} RestFrom(flat: seq<string>, files: seq<FileIn>)
    ensures forall f :: f in Rest(flat, files) ==> f in files
  {
    if files != [] {
      RestFrom(flat, files[..|files| - 1]);
    }
  }

  lemma {:induction false} NotInRest(flat: seq<string>, init: seq<FileIn>, last: FileIn)
    requires DistinctNames(init + [last])
    ensures forall g :: g in Rest(flat, init) ==> g.name != last.name
  {
    RestFrom(flat, init);
    forall g | g in Rest(flat, init) ensures g.name != last.name {
      var i :| 0 <= i < |init| && init[i] == g;
      assert (init + [last])[i] == g && (init + [last])[|init|] == last;
    }
  }

  lemma {:induction false} RestCounts(flat: seq<string>, files: seq<FileIn>, f: FileIn)
    requires DistinctNames(files)
    ensures multiset(Rest(flat, files))[f] == if Ext(f) !in flat then multiset(files)[f] else 0
  {
    if files != [] {
      var init, last := files[..|files| - 1], files[|files| - 1];
      assert files == init + [last];
      RestCounts(flat, init, f);
      NotInRest(flat, init, last);
    }
  }

  lemma {:induction false} SortedCount(languages: seq<string>, known: map<string, seq<string>>, files: seq<FileIn>,
                                       f: FileIn)
    requires DistinctNames(files) && languages != []
    ensures multiset(FilesOf(SortedGroups(languages, known, files)))[f] ==
            TimesShown(multiset(files)[f], Claims(Mains(languages, known), Ext(f)))
  {
    var mains := Mains(languages, known);
    var flat := AllExtensions(mains);
    FileComes(files, f);
    GroupsCount(languages, mains, files, f, Ext(f), multiset(files)[f]);
    RestCounts(flat, files, f);
    ClaimedIsFlat(mains, Ext(f));
  }

  lemma {:induction false} ShownOnce(languages: seq<string>, known: map<string, seq<string>>, files: seq<FileIn>,
                                     f: FileIn)
    requires DistinctNames(files) && languages != []
    ensures multiset(FilesOf(SortedGroups(languages, known, files)))[f] == multiset(files)[f] <==>
            (f in files ==> Claims(Mains(languages, known), Ext(f)) <= 1)
  {
    SortedCount(languages, known, files, f);
    Shown(multiset(files)[f], Claims(Mains(languages, known), Ext(f)));
    assert f in multiset(files) <==> f in files;
  }

  lemma {:induction false} SameCounts<T>(a: multiset<T>, b: multiset<T>)
    requires forall x :: a[x] == b[x]
    ensures a == b
  {
  }

  /** The groups hold every kept file exactly once exactly if no kept file's extension is claimed by two languages. */
  lemma {:induction false} GroupsArePermutation(languages: seq<string>, known: map<string, seq<string>>,
                                                files: seq<FileIn>)
    requires DistinctNames(files)
    ensures multiset(FilesOf(SortedGroups(languages, known, files))) == multiset(files) <==>
            languages == [] || forall f :: f in files ==> Claims(Mains(languages, known), Ext(f)) <= 1
  {
    var all := multiset(FilesOf(SortedGroups(languages, known, files)));
    if languages == [] {
      FilesOfSnoc([], Group("Other", files));
      assert [] + [Group("Other", files)] == [Group("Other", files)];
    } else if all == multiset(files) {
      forall f | f in files ensures Claims(Mains(languages, known), Ext(f)) <= 1 {
        ShownOnce(languages, known, files, f);
      }
    } else if forall f :: f in files ==> Claims(Mains(languages, known), Ext(f)) <= 1 {
      forall f ensures all[f] == multiset(files)[f] {
        ShownOnce(languages, known, files, f);
      }
      SameCounts(all, multiset(files));
    }
  }

  /** How often a file is shown that comes m times and has c claims. */
  function TimesShown(m: nat, c: nat): nat { if c == 0 then m else Times(m, c) }

  lemma {:induction false} Shown(m: nat, c: nat)
    ensures m > 0 ==> (TimesShown(m, c) == m <==> c <= 1) && (c >= 2 ==> TimesShown(m, c) > m)
    ensures m == 0 ==> TimesShown(m, c) == 0
  {
    assert Times(m, 1) == Times(m, 0) + m;
    if c >= 2 {
      Shown(m, c - 1);
    }
  }

  // ---------- every file with a patch in one chunk ----------

  ghost predicate DistinctFiles(files: multiset<FileIn>) {
    && (forall f, g :: f in files && g in files && f.name == g.name ==> f == g)
    && (forall f :: f in files ==> files[f] == 1)
  }

  lemma {:induction false} DistinctCounts(files: seq<FileIn>)
    requires DistinctNames(files)
    ensures DistinctFiles(multiset(files))
  {
    if files != [] {
      var init, last := files[..|files| - 1], files[|files| - 1];
      assert files == init + [last];
      DistinctCounts(init);
      forall f: FileIn | f in multiset(init) ensures f.name != last.name {
        var i :| 0 <= i < |init| && init[i] == f;
        assert files[i] == f;
      }
    }
  }

  /** The pieces are those of the files, each as often as its file. */
  lemma {:induction false} SurvivorsCount(files: seq<FileIn>, budget: int, policy: Policy, f: FileIn, p: Piece)
    requires DistinctFiles(multiset(files)) && Prepared(f, budget, policy) == Some(p.patch) && p.name == f.name && f in files
    ensures multiset(Survivors(files, budget, policy))[p] == 1
  {
    var init, last := files[..|files| - 1], files[|files| - 1];
    assert files == init + [last];
    assert multiset(files) == multiset(init) + multiset{last};
    forall g: FileIn | g in multiset(init) ensures multiset(init)[g] == 1 && g.name != last.name {
      assert 1 == multiset(files)[g] == multiset(init)[g] + multiset{last}[g];
      assert multiset{last}[g] == 0;
    }
    if f == last {
      NotAmong(init, budget, policy, p);
    } else {
      assert f in multiset(files) && f in multiset(init);
      SurvivorsCount(init, budget, policy, f, p);
    }
  }

  lemma {:induction false} NotAmong(files: seq<FileIn>, budget: int, policy: Policy, p: Piece)
    requires forall f :: f in files ==> f.name != p.name
    ensures multiset(Survivors(files, budget, policy))[p] == 0
  {
    if files != [] {
      var init, last := files[..|files| - 1], files[|files| - 1];
      assert files == init + [last];
      NotAmong(init, budget, policy, p);
    }
  }

  /** Every piece comes from a file. */
  lemma {:induction false} SurvivorFrom(files: seq<FileIn>, budget: int, policy: Policy, p: Piece)
    requires p in Survivors(files, budget, policy)
    ensures exists f :: f in files && f.name == p.name && Prepared(f, budget, policy) == Some(p.patch)
    ensures p.patch.tokens <= budget
  {
    var init, last := files[..|files| - 1], files[|files| - 1];
    assert files == init + [last] && last in files;
    if p in Survivors(init, budget, policy) {
      SurvivorFrom(init, budget, policy, p);
      var f :| f in init && f.name == p.name && Prepared(f, budget, policy) == Some(p.patch);
      assert f in files;
    }
  }

  lemma {:induction false} MissingPiece(some: seq<Piece>, all: seq<Piece>)
    requires some <= all && some != all && multiset(all)[all[|some|]] == 1
    ensures multiset(some)[all[|some|]] == 0
  {
    var p, rest := all[|some|], all[|some| + 1..];
    assert all == some + [p] + rest;
  }

  /** The chunks hold one piece of the file, and that is the given patch. */
  ghost predicate OnlyPiece(f: FileIn, patch: Patch, chunks: seq<seq<Piece>>) {
    && multiset(Concat(chunks))[Piece(f.name, patch)] == 1
    && forall p :: p in Concat(chunks) && p.name == f.name ==> p.patch == patch
  }

  ghost predicate NoPiece(f: FileIn, chunks: seq<seq<Piece>>) { forall p :: p in Concat(chunks) ==> p.name != f.name }

  /** A file whose patch fits is in one chunk with that patch, one whose patch is clipped to fit with the clipped one, and
      of any other file nothing is in any chunk. */
  ghost predicate InOneChunk(f: FileIn, chunks: seq<seq<Piece>>, budget: int, policy: Policy) {
    && (FitsWhole(f, budget) ==> OnlyPiece(f, f.left.value, chunks))
    && (FitsClipped(f, budget, policy) ==> OnlyPiece(f, f.clipped, chunks))
    && (!FitsWhole(f, budget) && !FitsClipped(f, budget, policy) ==> NoPiece(f, chunks))
  }

  /** Every piece in a chunk is the one of its file. */
  ghost predicate FromItsFile(files: seq<FileIn>, pieces: seq<Piece>, budget: int, policy: Policy) {
    forall f, p :: f in files && p in pieces && p.name == f.name ==> Prepared(f, budget, policy) == Some(p.patch)
  }

  lemma {:induction false} SurvivorsFromFiles(files: seq<FileIn>, packed: seq<FileIn>, pieces: seq<Piece>, budget: int,
                                              policy: Policy)
    requires DistinctFiles(multiset(files)) && multiset(packed) == multiset(files)
    requires forall p :: p in pieces ==> p in Survivors(packed, budget, policy)
    ensures FromItsFile(files, pieces, budget, policy)
  {
    forall f, p | f in files && p in pieces && p.name == f.name ensures Prepared(f, budget, policy) == Some(p.patch) {
      SurvivorFrom(packed, budget, policy, p);
      var g :| g in packed && g.name == p.name && Prepared(g, budget, policy) == Some(p.patch);
      assert g in multiset(packed) && g in multiset(files) && f in multiset(files);
    }
  }

  lemma {:induction false} InChunkExactly(files: seq<FileIn>, f: FileIn, chunks: seq<seq<Piece>>, budget: int,
                                          policy: Policy)
    requires f in files && FromItsFile(files, Concat(chunks), budget, policy)
    ensures var patch := Prepared(f, budget, policy);
            InOneChunk(f, chunks, budget, policy) <==>
            (patch.Some? ==> multiset(Concat(chunks))[Piece(f.name, patch.value)] == 1)
  {
    PreparedExactly(f, budget, policy);
  }

  lemma {:induction false} PackedCounts(languages: seq<string>, known: map<string, seq<string>>, files: seq<FileIn>,
                                        packed: seq<FileIn>, budget: int, policy: Policy, f: FileIn)
    requires DistinctNames(files)
    requires languages == [] || forall f :: f in files ==> Claims(Mains(languages, known), Ext(f)) <= 1
    requires multiset(packed) == multiset(FilesOf(SortedGroups(languages, known, files)))
    requires f in packed && Prepared(f, budget, policy).Some?
    ensures multiset(Survivors(packed, budget, policy))[Piece(f.name, Prepared(f, budget, policy).value)] == 1
    ensures f in files
  {
    GroupsArePermutation(languages, known, files);
    DistinctCounts(files);
    assert f in multiset(packed) && f in multiset(files);
    SurvivorsCount(packed, budget, policy, f, Piece(f.name, Prepared(f, budget, policy).value));
  }

  /** From the files of a request to its prompts, with distinct names and no extension claimed twice: every kept file whose
      patch fits, or is clipped to fit, is in exactly one chunk, with that patch, and no other file in any, exactly if as
      many calls are allowed as the pieces need in the order they are packed in. */
  lemma {:induction false} EveryFileInOneChunk(languages: seq<string>, known: map<string, seq<string>>,
                                               files: seq<FileIn>, packed: seq<FileIn>, chunks: seq<seq<Piece>>,
                                               budget: int, policy: Policy, limit: nat)
    requires DistinctNames(files)
    requires languages == [] || forall f :: f in files ==> Claims(Mains(languages, known), Ext(f)) <= 1
    requires multiset(packed) == multiset(FilesOf(SortedGroups(languages, known, files)))
    requires WithinBudget(chunks, budget) && Greedy(chunks, budget)
    requires Complete(chunks, Survivors(packed, budget, policy), budget, limit)
    ensures (forall f :: f in files ==> InOneChunk(f, chunks, budget, policy)) <==>
            |Packed(Survivors(packed, budget, policy), budget)| <= limit
    ensures chunks <= Packed(Survivors(packed, budget, policy), budget)
  {
    var all := Survivors(packed, budget, policy);
    GroupsArePermutation(languages, known, files);
    DistinctCounts(files);
    AllPlacedExactly(chunks, all, budget, limit);
    SurvivorsFromFiles(files, packed, Concat(chunks), budget, policy);
    if Concat(chunks) == all {
      forall f | f in files ensures InOneChunk(f, chunks, budget, policy) {
        assert f in multiset(files) && f in multiset(packed);
        if Prepared(f, budget, policy).Some? {
          PackedCounts(languages, known, files, packed, budget, policy, f);
        }
        InChunkExactly(files, f, chunks, budget, policy);
      }
    } else {
      var p := all[|Concat(chunks)|];
      SurvivorFrom(packed, budget, policy, p);
      var f :| f in packed && f.name == p.name && Prepared(f, budget, policy) == Some(p.patch);
      PackedCounts(languages, known, files, packed, budget, policy, f);
      MissingPiece(Concat(chunks), all);
      InChunkExactly(files, f, chunks, budget, policy);
    }
  }

  /** So no file is dropped where the pieces can be put into m groups within the budget and 2m - 1 calls are allowed. */
  lemma {:induction false} NoFileDropped(languages: seq<string>, known: map<string, seq<string>>, files: seq<FileIn>,
                                         packed: seq<FileIn>, chunks: seq<seq<Piece>>, groups: seq<seq<Piece>>,
                                         budget: int, policy: Policy, limit: nat)
    requires DistinctNames(files)
    requires languages == [] || forall f :: f in files ==> Claims(Mains(languages, known), Ext(f)) <= 1
    requires multiset(packed) == multiset(FilesOf(SortedGroups(languages, known, files)))
    requires WithinBudget(chunks, budget) && Greedy(chunks, budget)
    requires Complete(chunks, Survivors(packed, budget, policy), budget, limit)
    requires forall g :: 0 <= g < |groups| ==> Sum(groups[g]) <= budget
    requires multiset(Concat(groups)) == multiset(Survivors(packed, budget, policy)) && 2 * |groups| - 1 <= limit
    ensures forall f :: f in files ==> InOneChunk(f, chunks, budget, policy)
  {
    forall p | p in Survivors(packed, budget, policy) ensures p.patch.tokens <= budget {
      SurvivorFrom(packed, budget, policy, p);
    }
    NothingDropped(chunks, Survivors(packed, budget, policy), groups, budget, limit);
    EveryFileInOneChunk(languages, known, files, packed, chunks, budget, policy, limit);
  }
}
