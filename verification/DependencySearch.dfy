/** What a recorded name leads to in the search folders. */
module DependencySearch {
  import opened Bytes
  import opened Ordering

  /** Paths, keys and recorded names, as bytes. */
  type Text = seq<int>

  function LowerByte(c: int): int {
    if 'A' as int <= c <= 'Z' as int then c + 32 else c
  }

  function LowerAscii(t: Text): (l: Text)
    ensures |l| == |t| && forall i :: 0 <= i < |t| ==> l[i] == LowerByte(t[i])
  {
    seq(|t|, i requires 0 <= i < |t| => LowerByte(t[i]))
  }

  /** A folder: the names its listing delivers, and the names that an entry answers to, of which there are more where
      letter case does not count. */
  datatype Folder = Folder(listing: seq<Text>, present: set<Text>)

  /** The folders to search, in order, and those of them that are folders. */
  datatype Search = Search(paths: seq<Text>, folders: map<Text, Folder>)

  /** Names that could lead out of a folder: empty, a dot entry, with a separator or a NUL, or with a drive letter. */
  predicate Escapes(name: Text) {
    || name == [] || name == ['.' as int] || name == ['.' as int, '.' as int]
    || '/' as int in name || '\\' as int in name || 0 in name
    || (|name| >= 2 && name[1] == ':' as int)
  }

  function Joined(folder: Text, name: Text): Text
    requires folder != []
  {
    if folder[|folder| - 1] == '/' as int then folder + name else folder + ['/' as int] + name
  }

  function TextKey(t: Text): seq<int> {
    t
  }

  /** The listed names that have this lower-case form, in the order listed. */
  function Matching(listing: seq<Text>, lower: Text): seq<Text> {
    if listing == [] then []
    else
      var n := |listing| - 1;
      Matching(listing[..n], lower) + (if LowerAscii(listing[n]) == lower then [listing[n]] else [])
  }

  function Matches(listing: seq<Text>, lower: Text): seq<Text> {
    Sort(Matching(listing, lower), TextKey)
  }

  /** The entry a name stands for in one folder. */
  function Spelling(f: Folder, name: Text, ignoreCase: bool): Option<Text> {
    var m := if ignoreCase then Matches(f.listing, LowerAscii(name)) else [];
    if m != [] then Some(if name in m then name else m[0])
    else if name in f.present then Some(name)
    else None
  }

  /** The i-th folder is one and has an entry for the name. */
  predicate Leads(s: Search, name: Text, ignoreCase: bool, i: nat)
    requires i < |s.paths|
  {
    s.paths[i] != [] && s.paths[i] in s.folders && Spelling(s.folders[s.paths[i]], name, ignoreCase).Some?
  }

  function FoundFrom(s: Search, name: Text, ignoreCase: bool, i: nat): Option<Text>
    requires i <= |s.paths|
    decreases |s.paths| - i
  {
    if i == |s.paths| then None
    else if Leads(s, name, ignoreCase, i) then Some(Joined(s.paths[i], Spelling(s.folders[s.paths[i]], name, ignoreCase).value))
    else FoundFrom(s, name, ignoreCase, i + 1)
  }

  function Found(s: Search, name: Text, ignoreCase: bool): Option<Text> {
    if Escapes(name) then None else FoundFrom(s, name, ignoreCase, 0)
  }

  // ── What is found ──────────────────────────────────────────

  lemma {:induction false} FoundFromFirst(s: Search, name: Text, ignoreCase: bool, from: nat) returns (i: nat)
    requires from <= |s.paths|
    ensures from <= i <= |s.paths| && forall j :: from <= j < i ==> !Leads(s, name, ignoreCase, j)
    ensures FoundFrom(s, name, ignoreCase, from).Some? <==> i < |s.paths|
    ensures i < |s.paths| ==> Leads(s, name, ignoreCase, i)
    ensures i < |s.paths| ==>
      FoundFrom(s, name, ignoreCase, from) == Some(Joined(s.paths[i], Spelling(s.folders[s.paths[i]], name, ignoreCase).value))
    decreases |s.paths| - from
  {
    hide Spelling, Joined;
    i := from;
    if from < |s.paths| && !Leads(s, name, ignoreCase, from) { i := FoundFromFirst(s, name, ignoreCase, from + 1); }
  }

  /** A name that stays inside the folders is found exactly when some folder has an entry for it, and then in the
      first one that has. */
  lemma {:induction false} FoundInFirst(s: Search, name: Text, ignoreCase: bool) returns (i: nat)
    ensures Found(s, name, ignoreCase).Some? <==> !Escapes(name) && exists j :: 0 <= j < |s.paths| && Leads(s, name, ignoreCase, j)
    ensures Found(s, name, ignoreCase).Some? ==>
      && i < |s.paths| && Leads(s, name, ignoreCase, i) && (forall j :: 0 <= j < i ==> !Leads(s, name, ignoreCase, j))
      && Found(s, name, ignoreCase) == Some(Joined(s.paths[i], Spelling(s.folders[s.paths[i]], name, ignoreCase).value))
  {
    hide Spelling, Joined, Leads;
    i := FoundFromFirst(s, name, ignoreCase, 0);
  }

  lemma {:induction false} MatchingIs(listing: seq<Text>, lower: Text, t: Text)
    ensures t in Matching(listing, lower) <==> t in listing && LowerAscii(t) == lower
  {
    if listing != [] {
      var n := |listing| - 1;
      MatchingIs(listing[..n], lower, t);
      assert listing == listing[..n] + [listing[n]];
    }
  }

  lemma {:induction false} MatchesIs(listing: seq<Text>, lower: Text, t: Text)
    ensures t in Matches(listing, lower) <==> t in listing && LowerAscii(t) == lower
  {
    var m, sorted := Matching(listing, lower), Matches(listing, lower);
    MatchingIs(listing, lower, t);
    if t in m { InSeqInMultiset(m, sorted, t); }
    if t in sorted { InSeqInMultiset(sorted, m, t); }
  }

  ghost predicate AlikeName(f: Folder, name: Text, t: Text) {
    t in f.listing && LowerAscii(t) == LowerAscii(name)
  }

  /** Ignoring case, a listed name is preferred as it is spelled; otherwise the smallest of the listed names that
      differ in case only is taken; otherwise the name itself, if something answers to it. */
  lemma {:induction false} SpellingIs(f: Folder, name: Text)
    ensures var r := Spelling(f, name, true);
      && (name in f.listing ==> r == Some(name))
      && (name !in f.listing && (exists t :: AlikeName(f, name, t)) ==>
            r.Some? && AlikeName(f, name, r.value) && forall t :: AlikeName(f, name, t) ==> Lex(r.value, t) <= 0)
      && (!(exists t :: AlikeName(f, name, t)) ==> r == if name in f.present then Some(name) else None)
  {
    hide LowerAscii;
    var lower := LowerAscii(name);
    var m := Matches(f.listing, lower);
    forall t: Text ensures t in m <==> AlikeName(f, name, t) { MatchesIs(f.listing, lower, t); }
    hide AlikeName, Matches;
    if m != [] {
      assert m[0] in m;
      forall t: Text | t in m ensures Lex(m[0], t) <= 0 { FirstIsLeast(f.listing, lower, t); }
    }
  }

  lemma {:induction false} FirstIsLeast(listing: seq<Text>, lower: Text, t: Text)
    requires t in Matches(listing, lower)
    ensures Lex(Matches(listing, lower)[0], t) <= 0
  {
    var m := Matches(listing, lower);
    SortRises(Matching(listing, lower), TextKey);
    var k :| 0 <= k < |m| && m[k] == t;
    assert k > 0 ==> Lex(TextKey(m[0]), TextKey(m[k])) <= 0;
  }

  lemma {:induction false} LowerEscapes(a: Text, b: Text)
    requires LowerAscii(a) == LowerAscii(b)
    ensures Escapes(a) <==> Escapes(b)
  {
    assert |a| == |b|;
    forall i | 0 <= i < |a| ensures LowerByte(a[i]) == LowerByte(b[i]) {
      assert LowerAscii(a)[i] == LowerAscii(b)[i];
    }
  }

  /** Every folder searched lists what answers to these names, and lists neither of them as it is spelled. */
  ghost predicate ListedOtherwise(s: Search, a: Text, b: Text) {
    forall i :: 0 <= i < |s.paths| && s.paths[i] in s.folders ==>
      var f := s.folders[s.paths[i]];
      && a !in f.listing && b !in f.listing
      && (a in f.present || b in f.present ==> Matches(f.listing, LowerAscii(a)) != [])
  }

  lemma {:induction false} SameSpelling(f: Folder, a: Text, b: Text)
    requires LowerAscii(a) == LowerAscii(b) && a !in f.listing && b !in f.listing
    requires a in f.present || b in f.present ==> Matches(f.listing, LowerAscii(a)) != []
    ensures Spelling(f, a, true) == Spelling(f, b, true)
  {
    MatchesIs(f.listing, LowerAscii(a), a);
    MatchesIs(f.listing, LowerAscii(a), b);
  }

  lemma {:induction false} SameFrom(s: Search, a: Text, b: Text, i: nat)
    requires LowerAscii(a) == LowerAscii(b) && ListedOtherwise(s, a, b) && i <= |s.paths|
    ensures FoundFrom(s, a, true, i) == FoundFrom(s, b, true, i)
    decreases |s.paths| - i
  {
    hide Spelling, LowerAscii, Matches;
    if i < |s.paths| {
      SameFrom(s, a, b, i + 1);
      if s.paths[i] in s.folders { SameSpelling(s.folders[s.paths[i]], a, b); }
    }
  }

  /** Names that differ in case only lead to the same file, under the one name the folder holds for it. */
  lemma {:induction false} CaseIgnored(s: Search, a: Text, b: Text)
    requires LowerAscii(a) == LowerAscii(b) && ListedOtherwise(s, a, b)
    ensures Found(s, a, true) == Found(s, b, true)
  {
    hide Escapes, LowerAscii;
    LowerEscapes(a, b);
    SameFrom(s, a, b, 0);
  }

  // ── Grouping a listing ─────────────────────────────────────

  /** The groups of a listing: for each lower-case form that occurs, its names in order. */
  ghost predicate Grouped(groups: map<Text, seq<Text>>, listing: seq<Text>) {
    && (forall k :: k in groups <==> Matching(listing, k) != [])
    && (forall k :: k in groups ==> groups[k] == Matches(listing, k))
  }

  /** The names listed under each lower-case form so far. */
  ghost predicate Collected(entries: map<Text, seq<Text>>, listing: seq<Text>) {
    && (forall k :: k in entries <==> Matching(listing, k) != [])
    && (forall k :: k in entries ==> entries[k] == Matching(listing, k))
  }

  lemma {:induction false} CollectNext(entries: map<Text, seq<Text>>, listing: seq<Text>, name: Text)
    requires Collected(entries, listing)
    ensures var lower := LowerAscii(name);
      Collected(entries[lower := (if lower in entries then entries[lower] else []) + [name]], listing + [name])
  {
    hide LowerAscii;
    assert (listing + [name])[..|listing|] == listing;
  }

  method Group(listing: seq<Text>) returns (groups: map<Text, seq<Text>>)
    ensures Grouped(groups, listing)
  {
    hide LowerAscii, Collected;
    var entries: map<Text, seq<Text>> := map[];
    NothingCollected();
    for i := 0 to |listing|
      invariant Collected(entries, listing[..i])
    {
      var lower := LowerAscii(listing[i]);
      CollectNext(entries, listing[..i], listing[i]);
      assert listing[..i + 1] == listing[..i] + [listing[i]];
      entries := entries[lower := (if lower in entries then entries[lower] else []) + [listing[i]]];
    }
    assert listing[..|listing|] == listing;
    groups := map k | k in entries :: Sort(entries[k], TextKey);
    AllCollected(entries, groups, listing);
  }

  lemma {:induction false} NothingCollected()
    ensures Collected(map[], [])
  {
  }

  lemma {:induction false} AllCollected(entries: map<Text, seq<Text>>, groups: map<Text, seq<Text>>, listing: seq<Text>)
    requires Collected(entries, listing)
    requires groups.Keys == entries.Keys && forall k :: k in entries ==> groups[k] == Sort(entries[k], TextKey)
    ensures Grouped(groups, listing)
  {
    hide Matching, Sort;
    forall k: Text ensures k in groups <==> Matching(listing, k) != [] { assert k in groups.Keys <==> k in entries.Keys; }
  }

  lemma {:induction false} GroupIs(groups: map<Text, seq<Text>>, listing: seq<Text>, lower: Text)
    requires Grouped(groups, listing)
    ensures Matches(listing, lower) == if lower in groups then groups[lower] else []
    ensures lower in groups ==> groups[lower] != []
  {
  }
}
