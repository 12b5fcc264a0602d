/** Rows of a merge preview: cleaning them up, and grouping them by their kinds. */
module MergeConflicts {
  import opened Prelude
  import opened Sorting
  import opened StableJson
  import opened SchemaDiff

  datatype ConflictRow = ConflictRow(path: string, kinds: seq<string>)

  const DEFAULT_KINDS: seq<string> := ["twoWay"]

  /** Trimmed, without the empty ones. */
  function Cleaned(kinds: seq<string>): seq<string> {
    if kinds == [] then []
    else Cleaned(kinds[..|kinds| - 1]) + if Trim(kinds[|kinds| - 1]) != "" then [Trim(kinds[|kinds| - 1])] else []
  }

  function Unique(xs: seq<string>): seq<string> {
    if xs == [] then []
    else
      var before, x := Unique(xs[..|xs| - 1]), xs[|xs| - 1];
      if x in before then before else before + [x]
  }

  /** A key for grouping rows by kinds. */
  function Signature(kinds: seq<string>): string {
    Join(Sort(Less, Unique(Cleaned(kinds))), '|')
  }

  lemma {:induction false} UniqueExact(xs: seq<string>)
    ensures Distinct(Unique(xs)) && forall x :: x in Unique(xs) <==> x in xs
  {
    if xs != [] {
      var init, last := xs[..|xs| - 1], xs[|xs| - 1];
      assert xs == init + [last];
      UniqueExact(init);
    }
  }

  lemma {:induction false} CleanedNotEmpty(kinds: seq<string>)
    ensures "" !in Cleaned(kinds)
  {
    if kinds != [] { CleanedNotEmpty(kinds[..|kinds| - 1]); }
  }

  ghost predicate PipeFree(kinds: seq<string>) {
    forall k :: k in Cleaned(kinds) ==> '|' !in k
  }

  function SortedKinds(kinds: seq<string>): seq<string> {
    Sort(Less, Unique(Cleaned(kinds)))
  }

  lemma SortedKindsExact(kinds: seq<string>)
    ensures forall k :: k in SortedKinds(kinds) <==> k in Cleaned(kinds)
    ensures "" !in SortedKinds(kinds)
  {
    UniqueExact(Cleaned(kinds));
    CleanedNotEmpty(kinds);
    SortMembers(Less, Unique(Cleaned(kinds)));
  }

  lemma JoinIsEmpty(parts: seq<string>, d: char)
    requires "" !in parts
    ensures Join(parts, d) == "" <==> parts == []
  {
    if parts != [] { assert parts[0] in parts; }
  }

  lemma SplitsBack(kinds: seq<string>)
    requires PipeFree(kinds)
    ensures SortedKinds(kinds) == if Signature(kinds) == "" then [] else Split(Signature(kinds), '|')
  {
    SortedKindsExact(kinds);
    JoinIsEmpty(SortedKinds(kinds), '|');
    if SortedKinds(kinds) != [] {
      SplitJoin(SortedKinds(kinds), '|');
    }
  }

  ghost predicate SameKinds(a: seq<string>, b: seq<string>) {
    forall k :: k in Cleaned(a) <==> k in Cleaned(b)
  }

  lemma SameSignature(a: seq<string>, b: seq<string>)
    requires SameKinds(a, b)
    ensures Signature(a) == Signature(b)
  {
    UniqueExact(Cleaned(a));
    UniqueExact(Cleaned(b));
    forall k ensures k in Unique(Cleaned(a)) <==> k in Unique(Cleaned(b)) {
      assert k in Cleaned(a) <==> k in Cleaned(b);
    }
    SortedKeysAgree(Unique(Cleaned(a)), Unique(Cleaned(b)));
  }

  /** Two rows get the same signature exactly when they have the same kinds, in any order. */
  lemma SignatureExact(a: seq<string>, b: seq<string>)
    requires PipeFree(a) && PipeFree(b)
    ensures Signature(a) == Signature(b) <==> SameKinds(a, b)
  {
    if Signature(a) == Signature(b) {
      SplitsBack(a);
      SplitsBack(b);
      SortedKindsExact(a);
      SortedKindsExact(b);
      assert SortedKinds(a) == SortedKinds(b);
    }
    if SameKinds(a, b) {
      SameSignature(a, b);
    }
  }

  lemma OneKind(k: string)
    requires Cleaned([k]) == [k]
    ensures Signature([k]) == k
  {
    assert [k][..0] == [];
    assert Unique([k]) == [k];
    assert Sort(Less, [k]) == [k];
  }

  lemma TwoKinds(k: string, l: string)
    requires Cleaned([k, l]) == [k, l] && Less(k, l)
    ensures Signature([k, l]) == k + "|" + l
  {
    assert [k, l][..1] == [k] && [k][..0] == [];
    LessIrreflexive(k);
    LessTransitive(k, l, k);
    assert k != l && l !in [k];
    assert Unique([k]) == [k];
    assert Unique([k, l]) == Unique([k]) + [l] == [k, l];
    SortOfSorted(Less, [k, l]);
    assert [k, l][1..] == [l];
    assert Join([k, l], '|') == k + ['|'] + Join([l], '|');
  }

  /** A kind with a bar inside shares its signature with the two kinds around the bar. */
  lemma BarsCollide(k: string, l: string)
    requires Less(k, l) && Cleaned([k, l]) == [k, l] && Cleaned([k + "|" + l]) == [k + "|" + l]
    ensures Signature([k + "|" + l]) == Signature([k, l]) && !SameKinds([k + "|" + l], [k, l])
  {
    OneKind(k + "|" + l);
    TwoKinds(k, l);
    assert k in Cleaned([k, l]) && k !in Cleaned([k + "|" + l]);
  }

  // ---- Which kinds lose their signature to others ----

  /** Pieces that are a sorted list of kinds: trimmed, none empty, each before the next. */
  ghost predicate AreKinds(pieces: seq<string>) {
    && (forall i :: 0 <= i < |pieces| ==> pieces[i] != "" && Trim(pieces[i]) == pieces[i])
    && (forall i, j :: 0 <= i < j < |pieces| ==> Less(pieces[i], pieces[j]))
  }

  lemma {:induction false} TrimmedIsClean(kinds: seq<string>)
    requires forall i :: 0 <= i < |kinds| ==> kinds[i] != "" && Trim(kinds[i]) == kinds[i]
    ensures Cleaned(kinds) == kinds
  {
    if kinds != [] {
      var init, last := kinds[..|kinds| - 1], kinds[|kinds| - 1];
      TrimmedIsClean(init);
      assert kinds == init + [last];
    }
  }

  lemma {:induction false} DistinctIsUnique(xs: seq<string>)
    requires Distinct(xs)
    ensures Unique(xs) == xs
  {
    if xs != [] {
      var init, last := xs[..|xs| - 1], xs[|xs| - 1];
      DistinctIsUnique(init);
      forall i | 0 <= i < |init| ensures init[i] != last {
        assert xs[i] != xs[|xs| - 1];
      }
    }
  }

  /** Such pieces are what they sort and clean to. */
  lemma KindsStay(pieces: seq<string>)
    requires AreKinds(pieces)
    ensures Cleaned(pieces) == pieces && SortedKinds(pieces) == pieces
  {
    TrimmedIsClean(pieces);
    forall i, j | 0 <= i < j < |pieces| ensures pieces[i] != pieces[j] && !Less(pieces[j], pieces[i]) {
      LessIrreflexive(pieces[i]);
      LessTransitive(pieces[i], pieces[j], pieces[i]);
    }
    DistinctIsUnique(pieces);
    SortOfSorted(Less, pieces);
  }

  lemma {:induction false} CleanedIsTrimmed(kinds: seq<string>)
    ensures forall k :: k in Cleaned(kinds) ==> k != "" && Trim(k) == k
  {
    if kinds != [] {
      CleanedIsTrimmed(kinds[..|kinds| - 1]);
      TrimAgain(kinds[|kinds| - 1]);
    }
  }

  lemma SortedKindsAreKinds(kinds: seq<string>)
    ensures AreKinds(SortedKinds(kinds))
  {
    var sorted, unique := SortedKinds(kinds), Unique(Cleaned(kinds));
    SortedKindsExact(kinds);
    CleanedIsTrimmed(kinds);
    forall i | 0 <= i < |sorted| ensures sorted[i] != "" && Trim(sorted[i]) == sorted[i] {
      assert sorted[i] in sorted;
    }
    UniqueExact(Cleaned(kinds));
    LessIsOrder();
    SortSorts(Less, unique);
    SortDistinct(Less, unique);
    forall i, j | 0 <= i < j < |sorted| ensures Less(sorted[i], sorted[j]) {
      LessTotal(sorted[i], sorted[j]);
    }
  }

  lemma JoinEnds(parts: seq<string>)
    requires parts != [] && AreKinds(parts)
    ensures Join(parts, '|') != "" && TrimmedEnds(Join(parts, '|'))
  {
    TrimmedExact(parts[0]);
    if |parts| > 1 {
      JoinEnds(parts[1..]);
    }
  }

  /** Two or more kinds share their signature with the one kind that is that text. */
  lemma TwoKindsShare(a: seq<string>)
    requires |SortedKinds(a)| >= 2
    ensures Signature([Signature(a)]) == Signature(a) && !SameKinds(a, [Signature(a)])
  {
    var kinds, text := SortedKinds(a), Signature(a);
    SortedKindsAreKinds(a);
    JoinEnds(kinds);
    TrimmedExact(text);
    TrimmedIsClean([text]);
    OneKind(text);
    SortedKindsExact(a);
    FirstTwoDiffer(kinds);
    assert kinds[0] in kinds && kinds[1] in kinds;
    assert kinds[0] in Cleaned(a) && kinds[1] in Cleaned(a);
    assert Cleaned([text]) == [text];
  }

  lemma FirstTwoDiffer(kinds: seq<string>)
    requires |kinds| >= 2 && AreKinds(kinds)
    ensures kinds[0] != kinds[1]
  {
    LessIrreflexive(kinds[0]);
    assert Less(kinds[0], kinds[1]);
  }

  lemma OnlyKind(a: seq<string>)
    requires |SortedKinds(a)| == 1
    ensures forall k :: k in Cleaned(a) ==> k == SortedKinds(a)[0]
  {
    SortedKindsExact(a);
  }

  /** A kind that is two or more kinds with bars between them. */
  ghost predicate IsBarJoin(kind: string) {
    exists parts :: |parts| >= 2 && AreKinds(parts) && Join(parts, '|') == kind
  }

  lemma BarJoinShares(a: seq<string>, parts: seq<string>)
    requires |SortedKinds(a)| == 1 && |parts| >= 2 && AreKinds(parts) && Join(parts, '|') == SortedKinds(a)[0]
    ensures Signature(parts) == Signature(a) && !SameKinds(a, parts)
  {
    KindsStay(parts);
    FirstTwoDiffer(parts);
    OnlyKind(a);
    assert parts[0] in Cleaned(parts) && parts[1] in Cleaned(parts);
  }

  lemma SharedBy(a: seq<string>, b: seq<string>)
    requires !SameKinds(a, b) && Signature(b) == Signature(a)
    ensures |SortedKinds(a)| >= 2 || (|SortedKinds(a)| == 1 && IsBarJoin(SortedKinds(a)[0]))
  {
    SortedKindsExact(a);
    SortedKindsExact(b);
    JoinIsEmpty(SortedKinds(a), '|');
    JoinIsEmpty(SortedKinds(b), '|');
    SortedKindsAreKinds(b);
    if |SortedKinds(a)| == 1 {
      assert SortedKinds(b) != SortedKinds(a);
    }
  }

  /**
   * Some other kinds have the same signature exactly when there are two kinds or more, or the one kind is
   * itself a sorted list of kinds with bars between them.
   */
  lemma SignatureIsSharedExact(a: seq<string>)
    ensures
      (exists b :: !SameKinds(a, b) && Signature(b) == Signature(a))
      <==> |SortedKinds(a)| >= 2 || (|SortedKinds(a)| == 1 && IsBarJoin(SortedKinds(a)[0]))
  {
    if b :| !SameKinds(a, b) && Signature(b) == Signature(a) {
      SharedBy(a, b);
    }
    if |SortedKinds(a)| >= 2 {
      TwoKindsShare(a);
    } else if |SortedKinds(a)| == 1 && IsBarJoin(SortedKinds(a)[0]) {
      var parts :| |parts| >= 2 && AreKinds(parts) && Join(parts, '|') == SortedKinds(a)[0];
      BarJoinShares(a, parts);
    }
  }

  /**
   * The kinds whose signature is also that of other kinds, all bar-free: one of them holds a bar, and the
   * signature reads as a list of kinds.
   */
  lemma SharedWithPipeFreeExact(a: seq<string>)
    ensures
      (exists b :: PipeFree(b) && !SameKinds(a, b) && Signature(b) == Signature(a))
      <==> !PipeFree(a) && AreKinds(Split(Signature(a), '|'))
  {
    if b :| PipeFree(b) && !SameKinds(a, b) && Signature(b) == Signature(a) {
      OthersShare(a, b);
    }
    if !PipeFree(a) && AreKinds(Split(Signature(a), '|')) {
      PiecesShare(a);
    }
  }

  lemma OthersShare(a: seq<string>, b: seq<string>)
    requires PipeFree(b) && !SameKinds(a, b) && Signature(b) == Signature(a)
    ensures !PipeFree(a) && AreKinds(Split(Signature(a), '|'))
  {
    if PipeFree(a) { SignatureExact(a, b); }
    SortedKindsExact(a);
    SortedKindsExact(b);
    JoinIsEmpty(SortedKinds(a), '|');
    SplitsBack(b);
    SortedKindsAreKinds(b);
  }

  lemma PiecesShare(a: seq<string>)
    requires !PipeFree(a) && AreKinds(Split(Signature(a), '|'))
    ensures
      var b := Split(Signature(a), '|');
      PipeFree(b) && !SameKinds(a, b) && Signature(b) == Signature(a)
  {
    KindsStay(Split(Signature(a), '|'));
    JoinSplit(Signature(a), '|');
  }

  function Strings(items: seq<JsValue>): seq<string> {
    if items == [] then []
    else Strings(items[..|items| - 1]) + if items[|items| - 1].JStr? then [items[|items| - 1].s] else []
  }

  /** One usable conflict record, or none. */
  function RowFrom(c: JsValue): Option<ConflictRow> {
    var path := FieldOf(c, "path");
    if path.None? || !path.value.JStr? || Trim(path.value.s) == "" then None
    else
      Some(ConflictRow(Trim(path.value.s), KindsFrom(FieldOf(c, "kinds"))))
  }

  /** The kinds given, cleaned, or the default when that leaves none. */
  function KindsFrom(raw: Option<JsValue>): seq<string> {
    var kinds := if raw.Some? && raw.value.JArr? then Cleaned(Strings(raw.value.items)) else [];
    if kinds != [] then kinds else DEFAULT_KINDS
  }

  function RowsFrom(conflicts: seq<JsValue>): seq<ConflictRow> {
    if conflicts == [] then []
    else
      var row := RowFrom(conflicts[|conflicts| - 1]);
      RowsFrom(conflicts[..|conflicts| - 1]) + if row.Some? then [row.value] else []
  }

  function FallbackRows(paths: seq<string>): seq<ConflictRow> {
    seq(|paths|, i requires 0 <= i < |paths| => ConflictRow(paths[i], DEFAULT_KINDS))
  }

  method NormalizeMergeConflictRows(conflicts: JsValue, fallbackPaths: seq<string>) returns (rows: seq<ConflictRow>)
    ensures
      var usable := if conflicts.JArr? then RowsFrom(conflicts.items) else [];
      rows == if usable != [] then usable else FallbackRows(fallbackPaths)
  {
    if conflicts.JArr? && conflicts.items != [] {
      var out: seq<ConflictRow> := [];
      var items := conflicts.items;
      var i := 0;
      while i < |items|
        invariant 0 <= i <= |items| && out == RowsFrom(items[..i])
      {
        assert items[..i + 1][..i] == items[..i];
        var row := RowFrom(items[i]);
        if row.Some? { out := out + [row.value]; }
        i := i + 1;
      }
      assert items[..i] == items;
      if out != [] { return out; }
    }
    return FallbackRows(fallbackPaths);
  }

  /** Every usable row has a path and at least one kind, none of them blank. */
  lemma {:induction false} RowsAreUsable(conflicts: seq<JsValue>)
    ensures
      forall r ::
        r in RowsFrom(conflicts)
        ==> r.path != "" && r.kinds != [] && "" !in r.kinds && Signature(r.kinds) != ""
  {
    if conflicts != [] {
      RowsAreUsable(conflicts[..|conflicts| - 1]);
      var row := RowFrom(conflicts[|conflicts| - 1]);
      if row.Some? { RowIsUsable(conflicts[|conflicts| - 1]); }
    }
  }

  lemma DefaultIsClean()
    ensures Cleaned(DEFAULT_KINDS) == DEFAULT_KINDS
  {
    assert Trim("twoWay") == "twoWay";
    assert DEFAULT_KINDS[..0] == [];
  }

  lemma KindsAreClean(raw: Option<JsValue>)
    ensures KindsFrom(raw) != [] && Cleaned(KindsFrom(raw)) == KindsFrom(raw)
  {
    if raw.Some? && raw.value.JArr? {
      KindsStayClean(Strings(raw.value.items));
    }
    DefaultIsClean();
  }

  lemma RowIsUsable(c: JsValue)
    requires RowFrom(c).Some?
    ensures
      var r := RowFrom(c).value;
      r.path != "" && r.kinds != [] && "" !in r.kinds && Signature(r.kinds) != ""
  {
    var kinds := KindsFrom(FieldOf(c, "kinds"));
    KindsAreClean(FieldOf(c, "kinds"));
    CleanedNotEmpty(kinds);
    KindsHaveSignature(kinds);
  }

  lemma KindsHaveSignature(kinds: seq<string>)
    requires Cleaned(kinds) != []
    ensures Signature(kinds) != ""
  {
    SortedKindsExact(kinds);
    JoinIsEmpty(SortedKinds(kinds), '|');
    assert Cleaned(kinds)[0] in SortedKinds(kinds);
  }

  /** Trimmed text has nothing to trim at either end. */
  predicate TrimmedEnds(s: string) {
    s != "" ==> !IsJsSpace(s[0]) && !IsJsSpace(s[|s| - 1])
  }

  lemma TrimmedExact(s: string)
    ensures Trim(s) == s <==> TrimmedEnds(s)
  {
    TrimLeftEnds(s);
    TrimRightEnds(TrimLeft(IsJsSpace, s));
    TrimRightKeepsStart(TrimLeft(IsJsSpace, s));
  }

  lemma TrimAgain(s: string)
    ensures Trim(Trim(s)) == Trim(s)
  {
    TrimLeftEnds(s);
    TrimRightEnds(TrimLeft(IsJsSpace, s));
    TrimRightKeepsStart(TrimLeft(IsJsSpace, s));
  }

  lemma {:induction false} TrimLeftEnds(s: string)
    ensures var t := TrimLeft(IsJsSpace, s); t == "" || !IsJsSpace(t[0])
  {
    if s != [] && IsJsSpace(s[0]) { TrimLeftEnds(s[1..]); }
  }

  lemma {:induction false} TrimRightEnds(s: string)
    ensures var t := TrimRight(IsJsSpace, s); t == "" || !IsJsSpace(t[|t| - 1])
  {
    if s != [] && IsJsSpace(s[|s| - 1]) { TrimRightEnds(s[..|s| - 1]); }
  }

  lemma {:induction false} TrimRightKeepsStart(s: string)
    requires s == "" || !IsJsSpace(s[0])
    ensures var t := TrimRight(IsJsSpace, s); t == "" || (!IsJsSpace(t[0]) && t[0] == s[0])
  {
    if s != [] && IsJsSpace(s[|s| - 1]) {
      TrimRightKeepsStart(s[..|s| - 1]);
    }
  }

  lemma {:induction false} KindsStayClean(kinds: seq<string>)
    ensures Cleaned(Cleaned(kinds)) == Cleaned(kinds)
  {
    if kinds != [] {
      var init, last := kinds[..|kinds| - 1], Trim(kinds[|kinds| - 1]);
      KindsStayClean(init);
      TrimAgain(kinds[|kinds| - 1]);
      if last != "" {
        var out := Cleaned(init) + [last];
        assert out[..|out| - 1] == Cleaned(init) && out[|out| - 1] == last;
        assert Cleaned(out) == Cleaned(Cleaned(init)) + [last];
      } else {
        assert Cleaned(init) + [] == Cleaned(init);
      }
    }
  }

  // ---- What a row holds ----

  lemma {:induction false} UsableKindsExact(items: seq<JsValue>, k: string)
    ensures
      k in Cleaned(Strings(items))
      <==> k != "" && exists i :: 0 <= i < |items| && items[i].JStr? && Trim(items[i].s) == k
  {
    if items != [] {
      var init, last := items[..|items| - 1], items[|items| - 1];
      assert items == init + [last];
      UsableKindsExact(init, k);
      if last.JStr? {
        assert (Strings(init) + [last.s])[..|Strings(init)|] == Strings(init);
      } else {
        NothingAdded(Strings(init));
      }
    }
  }

  /** One of the given kinds is this text, outer spaces aside, and it is not empty. */
  ghost predicate Gives(c: JsValue, k: string) {
    var raw := FieldOf(c, "kinds");
    k != "" && raw.Some? && raw.value.JArr?
    && exists i :: 0 <= i < |raw.value.items| && raw.value.items[i].JStr? && Trim(raw.value.items[i].s) == k
  }

  /** The given kinds; `twoWay` alone when there are none. */
  ghost predicate HasKinds(c: JsValue, kinds: seq<string>) {
    if exists k :: Gives(c, k) then forall k :: k in kinds <==> Gives(c, k) else kinds == ["twoWay"]
  }

  /** A record gives a row exactly when its path is text that is not blank; the row has the path trimmed. */
  lemma RowExact(c: JsValue)
    ensures
      RowFrom(c).Some? <==>
        FieldOf(c, "path").Some? && FieldOf(c, "path").value.JStr? && Trim(FieldOf(c, "path").value.s) != ""
    ensures
      RowFrom(c).Some? ==>
        RowFrom(c).value.path == Trim(FieldOf(c, "path").value.s) && HasKinds(c, RowFrom(c).value.kinds)
  {
    if RowFrom(c).Some? { KindsHeld(c); }
  }

  lemma KindsHeld(c: JsValue)
    ensures HasKinds(c, KindsFrom(FieldOf(c, "kinds")))
  {
    var raw := FieldOf(c, "kinds");
    if raw.Some? && raw.value.JArr? {
      var kinds := Cleaned(Strings(raw.value.items));
      forall k ensures k in kinds <==> Gives(c, k) {
        UsableKindsExact(raw.value.items, k);
      }
      if kinds != [] { assert kinds[0] in kinds; }
    }
  }

  lemma FallbackExact(paths: seq<string>, i: nat)
    requires i < |paths|
    ensures |FallbackRows(paths)| == |paths| && FallbackRows(paths)[i] == ConflictRow(paths[i], ["twoWay"])
  {}
}
