/** What each manufacturer gets, and when two groups of a chip family have one name. */
module TargetNames {

  import opened TargetGroups
  import Decimal

  // ---- The configuration ----

  /** A target without a chip family counts as native, a family without a split limit has the default one, and two
      families are special. */
  lemma {:induction false} ConfigMeans(c: Config, target: string, chip: string)
    ensures c.Chip(target) == if target in c.families then c.families[target] else "native"
    ensures c.Limit(chip) == if chip in c.limits then c.limits[chip] else c.defaultLimit
    ensures IsSpecial(chip) <==> chip in {"special", "rp2040"}
  {
  }

  // ---- The shares ----

  lemma {:induction false} FilterConcat(a: seq<string>, b: seq<string>, chip: string, c: Config)
    ensures Filter(a + b, chip, c) == Filter(a, chip, c) + Filter(b, chip, c)
  {
    if b == [] {
      assert a + b == a;
    } else {
      var n, t := |b| - 1, b[|b| - 1];
      FilterConcat(a, b[..n], chip, c);
      assert (a + b)[..|a + b| - 1] == a + b[..n];
      Assoc(Filter(a, chip, c), Filter(b[..n], chip, c), if c.Chip(t) == chip then [t] else []);
    }
  }

  // Apart from NXP families a share is what the list of that manufacturer has of the family.
  lemma {:induction false} ShareAlone(manufacturers: seq<Entry<string>>, chip: string, key: string, c: Config)
    requires chip !in c.nxpChips && DistinctKeys(manufacturers)
    ensures Share(manufacturers, chip, key, c) == Filter(Lookup(manufacturers, key), chip, c)
  {
    if manufacturers == [] {
    } else {
      hide Filter, Lookup, DistinctKeys;
      var n := |manufacturers| - 1;
      DistinctFront(manufacturers);
      ShareAlone(manufacturers[..n], chip, key, c);
      LookupLast(manufacturers, key);
      NoTargets(chip, c);
      assert Filter(manufacturers[n].targets, chip, c) == [] + Filter(manufacturers[n].targets, chip, c);
    }
  }

  lemma {:induction false} NoTargets(chip: string, c: Config)
    ensures Filter([], chip, c) == []
  {
  }

  lemma {:induction false} LookupLast(entries: seq<Entry<string>>, key: string)
    requires entries != [] && DistinctKeys(entries)
    ensures var n := |entries| - 1;
      Lookup(entries, key) == if entries[n].key == key then entries[n].targets else Lookup(entries[..n], key)
    ensures entries[|entries| - 1].key == key ==> Lookup(entries[..|entries| - 1], key) == []
  {
    var n := |entries| - 1;
    if n == 0 {
    } else {
      LookupLast(entries[1..], key);
      assert entries[..n][1..] == entries[1..][..n - 1];
      assert entries[1..][n - 1] == entries[n];
    }
  }

  // In an NXP family all targets are the share of one manufacturer called nxp.
  lemma {:induction false} SharePooled(manufacturers: seq<Entry<string>>, chip: string, key: string, c: Config)
    requires chip in c.nxpChips
    ensures Share(manufacturers, chip, key, c) == if key == "nxp" then Filter(Held(manufacturers), chip, c) else []
  {
    if manufacturers == [] {
    } else {
      hide Filter, Held;
      var n := |manufacturers| - 1;
      SharePooled(manufacturers[..n], chip, key, c);
      HeldNext(manufacturers, n);
      assert manufacturers[..n + 1] == manufacturers;
      FilterConcat(Held(manufacturers[..n]), manufacturers[n].targets, chip, c);
    }
  }

  /** A share is what one manufacturer's list has of a family, or what all lists have in the NXP families. */
  lemma {:induction false} ShareMeans(manufacturers: seq<Entry<string>>, chip: string, key: string, c: Config)
    requires DistinctKeys(manufacturers)
    ensures Share(manufacturers, chip, key, c)
         == if chip !in c.nxpChips then Filter(Lookup(manufacturers, key), chip, c)
            else if key == "nxp" then Filter(Held(manufacturers), chip, c) else []
  {
    if chip in c.nxpChips {
      SharePooled(manufacturers, chip, key, c);
    } else {
      ShareAlone(manufacturers, chip, key, c);
    }
  }

  // ---- What a manufacturer gets ----

  lemma {:induction false} FlatAt(pieces: seq<seq<Group>>, k: nat) returns (a: nat)
    requires k < |pieces|
    ensures a + |pieces[k]| <= |Flat(pieces)| && Flat(pieces)[a..a + |pieces[k]|] == pieces[k]
  {
    var n := |pieces| - 1;
    if k == n {
      a := |Flat(pieces[..n])|;
    } else {
      a := FlatAt(pieces[..n], k);
      assert Flat(pieces)[a..a + |pieces[k]|] == Flat(pieces[..n])[a..a + |pieces[k]|];
    }
  }

  lemma {:induction false} LookupAt(mans: seq<Entry<string>>, key: string) returns (k: nat)
    requires Lookup(mans, key) != []
    ensures k < |mans| && mans[k].key == key && mans[k].targets == Lookup(mans, key)
  {
    if mans[0].key == key {
      k := 0;
    } else {
      k := LookupAt(mans[1..], key);
      k := k + 1;
    }
  }

  // Where a manufacturer's groups are.
  lemma {:induction false} PieceOf(family: seq<Group>, manufacturers: seq<Entry<string>>, chip: string, key: string,
                                   c: Config)
    returns (a: nat, piece: seq<Group>)
    requires c.Valid() && FamilyLaid(family, manufacturers, chip, c) && Share(manufacturers, chip, key, c) != []
    ensures a + |piece| <= |family| && family[a..a + |piece|] == piece
    ensures ManLaid(piece, Entry(key, Share(manufacturers, chip, key, c)), chip, c)
  {
    hide Flat, ManLaid, Share, MiscLaid, Small, Lookup, Ascending, DistinctKeys, NoneEmpty;
    var mans, pieces, misc :| Shares(mans, manufacturers, chip, c) && ChipLaid(family, mans, pieces, misc, chip, c);
    assert Lookup(mans, key) == Share(manufacturers, chip, key, c);
    var k := LookupAt(mans, key);
    a := FlatAt(pieces, k);
    piece := pieces[k];
    assert mans[k] == Entry(key, Share(manufacturers, chip, key, c));
    assert family[a..a + |piece|] == Flat(pieces)[a..a + |piece|];
  }

  /** A manufacturer with more targets than the lower limit, or a pooled one, and not more than the split limit has a
      group of its name with exactly its targets. */
  lemma {:induction false} OneGroup(family: seq<Group>, manufacturers: seq<Entry<string>>, chip: string, key: string,
                                    c: Config)
    returns (i: nat)
    requires c.Valid() && FamilyLaid(family, manufacturers, chip, c)
    requires var targets := Share(manufacturers, chip, key, c);
      0 < |targets| <= c.Limit(chip) && (|targets| > c.lowerLimit || chip in c.nxpChips)
    ensures var targets := Share(manufacturers, chip, key, c);
      && i < |family|
      && family[i] == Group(key + "-" + (if chip == "stm32f1" then "io" else chip), chip, targets, |targets|)
  {
    hide FamilyLaid, Share;
    var a, piece := PieceOf(family, manufacturers, chip, key, c);
    i := a;
    assert family[a..a + 1][0] == piece[0];
  }

  lemma {:induction false} EmittedParts(piece: seq<Group>, targets: seq<string>, name: string, chip: string, c: Config)
    requires c.Valid() && IsNumbered(piece, targets, name, chip, c)
    ensures Emitted(piece) == targets
  {
    PartsMean(targets, c.Limit(chip));
    PartsEmitted(piece, Parts(targets, c.Limit(chip)));
  }

  lemma {:induction false} PartsEmitted(piece: seq<Group>, parts: seq<seq<string>>)
    requires |piece| == |parts| && forall i :: 0 <= i < |piece| ==> piece[i].targets == parts[i]
    ensures Emitted(piece) == Concat(parts)
  {
    if piece == [] {
    } else {
      PartsEmitted(piece[..|piece| - 1], parts[..|parts| - 1]);
    }
  }

  /** One with more targets than the split limit has consecutive groups, numbered from 0 on, that hold exactly its
      targets in order, each with its count. */
  lemma {:induction false} SeveralGroups(family: seq<Group>, manufacturers: seq<Entry<string>>, chip: string,
                                         key: string, c: Config)
    returns (a: nat, n: nat)
    requires c.Valid() && FamilyLaid(family, manufacturers, chip, c)
    requires |Share(manufacturers, chip, key, c)| > c.Limit(chip)
    ensures 0 < n && a + n <= |family| && Emitted(family[a..a + n]) == Share(manufacturers, chip, key, c)
    ensures forall i: nat :: i < n ==>
      var g := family[a..a + n][i];
      g.name == key + "-" + Label(chip) + "-" + Decimal.Print(i) && g.chip == chip && g.len == |g.targets|
  {
    hide FamilyLaid, Share, Parts;
    var piece;
    a, piece := PieceOf(family, manufacturers, chip, key, c);
    n := |piece|;
    var targets := Share(manufacturers, chip, key, c);
    PartsMean(targets, c.Limit(chip));
    EmittedParts(piece, targets, key + "-" + Label(chip), chip, c);
  }

  /** The others are together in the misc groups at the end, in name order. */
  lemma {:induction false} MiscGroups(family: seq<Group>, manufacturers: seq<Entry<string>>, chip: string, c: Config)
    returns (mans: seq<Entry<string>>, a: nat)
    requires c.Valid() && FamilyLaid(family, manufacturers, chip, c)
    ensures Shares(mans, manufacturers, chip, c) && a <= |family|
    ensures Emitted(family[a..]) == Small(mans, chip, c)
    ensures forall i :: 0 <= i < |family[a..]| ==>
      || family[a..][i].name == "misc-" + Label(chip)
      || family[a..][i].name == "misc-" + Label(chip) + "-" + Decimal.Print(i)
  {
    hide Flat, MansLaid, Share, Small, Shares, Parts;
    var pieces, misc;
    mans, pieces, misc :| Shares(mans, manufacturers, chip, c) && ChipLaid(family, mans, pieces, misc, chip, c);
    a := |Flat(pieces)|;
    assert family[a..] == misc;
    var targets := Small(mans, chip, c);
    if targets == [] {
      NothingEmitted();
    } else if |Parts(targets, c.Limit(chip))| == 1 {
      EmittedSnoc([], misc[0]);
      NothingEmitted();
      assert [] + [misc[0]] == misc && [] + targets == targets;
    } else {
      EmittedParts(misc, targets, "misc-" + Label(chip), chip, c);
    }
  }

  // ---- Names ----

  ghost predicate DistinctNames(groups: seq<Group>) {
    forall i, j :: 0 <= i < j < |groups| ==> groups[i].name != groups[j].name
  }

  /** As every chip label is: without a dash, and not only digits. */
  predicate IsWord(tag: string) { '-' !in tag && !Decimal.AllDigits(tag) }

  /** A group of the manufacturer: its name and the chip label, with or without a number. */
  ghost predicate NamedFor(name: string, key: string, tag: string) {
    name == key + "-" + tag || exists i: nat :: name == key + "-" + tag + "-" + Decimal.Print(i)
  }

  lemma {:induction false} SameTail(a: string, x: string, b: string, y: string)
    requires '-' !in x && '-' !in y && a + "-" + x == b + "-" + y
    ensures a == b && x == y
  {
    var s, t := a + "-" + x, b + "-" + y;
    assert s[|a|] == '-' && t[|b|] == '-';
    assert forall i :: |a| < i < |s| ==> s[i] == x[i - |a| - 1];
    assert forall i :: |b| < i < |t| ==> t[i] == y[i - |b| - 1];
    assert |a| == |b|;
    assert s[|a| + 1..] == x && t[|b| + 1..] == y && s[..|a|] == a && t[..|b|] == b;
  }

  lemma {:induction false} NoDash(n: nat)
    ensures '-' !in Decimal.Print(n)
  {
  }

  /** A name tells the manufacturer. */
  lemma {:induction false} KeyTold(name: string, k: string, l: string, tag: string)
    requires IsWord(tag) && NamedFor(name, k, tag) && NamedFor(name, l, tag)
    ensures k == l
  {
    hide Decimal.Print;
    var a, b := k + "-" + tag, l + "-" + tag;
    if name == a && name == b {
      SameTail(k, tag, l, tag);
    } else if name == a {
      var i: nat :| name == b + "-" + Decimal.Print(i);
      NoDash(i);
      SameTail(k, tag, b, Decimal.Print(i));
    } else if name == b {
      var i: nat :| name == a + "-" + Decimal.Print(i);
      NoDash(i);
      SameTail(l, tag, a, Decimal.Print(i));
    } else {
      var i: nat, j: nat :| name == a + "-" + Decimal.Print(i) && name == b + "-" + Decimal.Print(j);
      NoDash(i);
      NoDash(j);
      SameTail(a, Decimal.Print(i), b, Decimal.Print(j));
      SameTail(k, tag, l, tag);
    }
  }

  ghost predicate OwnedBy(piece: seq<Group>, key: string, tag: string) {
    forall i :: 0 <= i < |piece| ==> NamedFor(piece[i].name, key, tag)
  }

  lemma {:induction false} NumberedNames(piece: seq<Group>, targets: seq<string>, key: string, chip: string, c: Config)
    requires c.Valid() && IsNumbered(piece, targets, key + "-" + Label(chip), chip, c)
    ensures OwnedBy(piece, key, Label(chip)) && DistinctNames(piece)
  {
    hide Parts, Decimal.Print;
    var name := key + "-" + Label(chip);
    forall i: nat, j: nat | i < j < |piece|
      ensures piece[i].name != piece[j].name
    {
      if Decimal.Print(i) == Decimal.Print(j) {
        Decimal.PrintInjective(i, j);
      }
      TailsDiffer(name + "-", Decimal.Print(i), Decimal.Print(j));
    }
  }

  lemma {:induction false} TailsDiffer(a: string, x: string, y: string)
    requires x != y
    ensures a + x != a + y
  {
    assert (a + x)[|a|..] == x && (a + y)[|a|..] == y;
  }

  lemma {:induction false} ManNames(piece: seq<Group>, e: Entry<string>, chip: string, c: Config)
    requires c.Valid() && ManLaid(piece, e, chip, c)
    ensures OwnedBy(piece, e.key, Label(chip)) && DistinctNames(piece)
  {
    hide IsNumbered;
    if !GetsOne(|e.targets|, chip, c) && |e.targets| > c.Limit(chip) {
      NumberedNames(piece, e.targets, e.key, chip, c);
    }
  }

  lemma {:induction false} MiscNames(misc: seq<Group>, targets: seq<string>, chip: string, c: Config)
    requires c.Valid() && MiscLaid(misc, targets, chip, c)
    ensures OwnedBy(misc, "misc", Label(chip)) && DistinctNames(misc)
  {
    hide IsNumbered, Parts;
    assert "misc-" + Label(chip) == "misc" + "-" + Label(chip);
    if targets != [] && |Parts(targets, c.Limit(chip))| != 1 {
      NumberedNames(misc, targets, "misc", chip, c);
    }
  }

  // Every group belongs to one of the manufacturers.
  ghost predicate OwnedAmong(groups: seq<Group>, mans: seq<Entry<string>>, tag: string) {
    forall i :: 0 <= i < |groups| ==> exists k :: 0 <= k < |mans| && NamedFor(groups[i].name, mans[k].key, tag)
  }

  ghost predicate Apart(a: seq<Group>, b: seq<Group>) {
    forall i, j :: 0 <= i < |a| && 0 <= j < |b| ==> a[i].name != b[j].name
  }

  lemma {:induction false} JoinNames(a: seq<Group>, b: seq<Group>)
    requires DistinctNames(a) && DistinctNames(b) && Apart(a, b)
    ensures DistinctNames(a + b)
  {
  }

  lemma {:induction false} KeysApart(a: seq<Group>, mans: seq<Entry<string>>, b: seq<Group>, key: string, tag: string)
    requires IsWord(tag) && OwnedAmong(a, mans, tag) && OwnedBy(b, key, tag)
    requires forall k :: 0 <= k < |mans| ==> mans[k].key != key
    ensures Apart(a, b)
  {
    hide NamedFor, IsWord;
    forall i, j | 0 <= i < |a| && 0 <= j < |b|
      ensures a[i].name != b[j].name
    {
      var k :| 0 <= k < |mans| && NamedFor(a[i].name, mans[k].key, tag);
      if a[i].name == b[j].name {
        KeyTold(a[i].name, mans[k].key, key, tag);
      }
    }
  }

  lemma {:induction false} FlatNames(pieces: seq<seq<Group>>, mans: seq<Entry<string>>, chip: string, c: Config)
    requires c.Valid() && MansLaid(pieces, mans, chip, c) && DistinctKeys(mans) && IsWord(Label(chip))
    ensures DistinctNames(Flat(pieces)) && OwnedAmong(Flat(pieces), mans, Label(chip))
  {
    hide ManLaid, NamedFor, DistinctKeys, IsWord, DistinctNames, Apart;
    if mans == [] {
      assert DistinctNames([]) by { NoNames(); }
    } else {
      var n := |mans| - 1;
      DistinctFront(mans);
      FlatNames(pieces[..n], mans[..n], chip, c);
      ManNames(pieces[n], mans[n], chip, c);
      forall k | 0 <= k < n
        ensures mans[..n][k].key != mans[n].key
      {
        KeysDiffer(mans, k, n);
      }
      KeysApart(Flat(pieces[..n]), mans[..n], pieces[n], mans[n].key, Label(chip));
      JoinNames(Flat(pieces[..n]), pieces[n]);
      AmongNext(Flat(pieces[..n]), pieces[n], mans, Label(chip));
    }
  }

  lemma {:induction false} NoNames()
    ensures DistinctNames([])
  {
  }

  lemma {:induction false} AmongNext(a: seq<Group>, b: seq<Group>, mans: seq<Entry<string>>, tag: string)
    requires mans != [] && OwnedAmong(a, mans[..|mans| - 1], tag) && OwnedBy(b, mans[|mans| - 1].key, tag)
    ensures OwnedAmong(a + b, mans, tag)
  {
    hide NamedFor;
    var n, all := |mans| - 1, a + b;
    forall i | 0 <= i < |all|
      ensures exists k :: 0 <= k < |mans| && NamedFor(all[i].name, mans[k].key, tag)
    {
      if i < |a| {
        var k :| 0 <= k < |mans[..n]| && NamedFor(a[i].name, mans[..n][k].key, tag);
        assert NamedFor(all[i].name, mans[k].key, tag);
      } else {
        assert NamedFor(b[i - |a|].name, mans[n].key, tag);
      }
    }
  }

  lemma {:induction false} DistinctFront(mans: seq<Entry<string>>)
    requires mans != [] && DistinctKeys(mans)
    ensures DistinctKeys(mans[..|mans| - 1])
  {
    var front := mans[..|mans| - 1];
    if |mans| == 1 {
    } else {
      DistinctFront(mans[1..]);
      assert front[1..] == mans[1..][..|mans| - 2];
      assert forall i :: 0 <= i < |front[1..]| ==> front[1..][i] == mans[1..][i];
    }
  }

  lemma {:induction false} InPiece(pieces: seq<seq<Group>>, i: nat) returns (k: nat, j: nat)
    requires i < |Flat(pieces)|
    ensures k < |pieces| && j < |pieces[k]| && Flat(pieces)[i] == pieces[k][j]
  {
    var n := |pieces| - 1;
    if i < |Flat(pieces[..n])| {
      k, j := InPiece(pieces[..n], i);
    } else {
      k, j := n, i - |Flat(pieces[..n])|;
    }
  }

  /** A manufacturer called `misc` and the manufacturers without groups of their own: one group each, or several
      each. */
  ghost predicate MiscClash(mans: seq<Entry<string>>, chip: string, c: Config)
    requires c.Valid()
  {
    exists k :: 0 <= k < |mans| && mans[k].key == "misc" && Clashing(|mans[k].targets|, Small(mans, chip, c), chip, c)
  }

  ghost predicate Clashing(n: nat, small: seq<string>, chip: string, c: Config)
    requires c.Valid()
  {
    var parts := |Parts(small, c.Limit(chip))|;
    (GetsOne(n, chip, c) && parts == 1) || (n > c.Limit(chip) && parts > 1)
  }

  lemma {:induction false} MiscApart(piece: seq<Group>, e: Entry<string>, misc: seq<Group>, small: seq<string>,
                                     chip: string, c: Config, i: nat, j: nat)
    requires c.Valid() && e.key == "misc" && ManLaid(piece, e, chip, c) && MiscLaid(misc, small, chip, c)
    requires i < |piece| && j < |misc| && !Clashing(|e.targets|, small, chip, c)
    ensures piece[i].name != misc[j].name
  {
    hide Parts;
    PartsMean(small, c.Limit(chip));
    assert "misc" + "-" + Label(chip) == "misc-" + Label(chip);
  }

  lemma {:induction false} MiscMeet(piece: seq<Group>, e: Entry<string>, misc: seq<Group>, small: seq<string>,
                                    chip: string, c: Config)
    requires c.Valid() && e.key == "misc" && ManLaid(piece, e, chip, c) && MiscLaid(misc, small, chip, c)
    requires Clashing(|e.targets|, small, chip, c)
    ensures piece != [] && misc != [] && piece[0].name == misc[0].name
  {
    hide Parts;
    PartsMean(small, c.Limit(chip));
    PartsMean(e.targets, c.Limit(chip));
    assert "misc" + "-" + Label(chip) == "misc-" + Label(chip);
  }

  lemma {:induction false} ClashMeets(family: seq<Group>, mans: seq<Entry<string>>, pieces: seq<seq<Group>>,
                                      misc: seq<Group>, chip: string, c: Config, k: nat)
    requires c.Valid() && ChipLaid(family, mans, pieces, misc, chip, c)
    requires k < |mans| && mans[k].key == "misc" && Clashing(|mans[k].targets|, Small(mans, chip, c), chip, c)
    ensures !DistinctNames(family)
  {
    hide Flat, Small, ManLaid, MiscLaid, Clashing;
    MiscMeet(pieces[k], mans[k], misc, Small(mans, chip, c), chip, c);
    var a := FlatAt(pieces, k);
    assert Flat(pieces)[a..a + |pieces[k]|][0] == pieces[k][0];
    assert family[a] == pieces[k][0] && family[|Flat(pieces)|] == misc[0];
  }

  lemma {:induction false} NoClash(family: seq<Group>, mans: seq<Entry<string>>, pieces: seq<seq<Group>>,
                                   misc: seq<Group>, chip: string, c: Config)
    requires c.Valid() && ChipLaid(family, mans, pieces, misc, chip, c) && DistinctKeys(mans) && IsWord(Label(chip))
    requires !MiscClash(mans, chip, c)
    ensures DistinctNames(family)
  {
    hide Flat, Small, NamedFor, IsWord, DistinctKeys, DistinctNames, ManLaid, MiscLaid, Clashing;
    FlatNames(pieces, mans, chip, c);
    MiscNames(misc, Small(mans, chip, c), chip, c);
    forall i: nat, j: nat | i < |Flat(pieces)| && j < |misc|
      ensures Flat(pieces)[i].name != misc[j].name
    {
      var k, l := InPiece(pieces, i);
      if mans[k].key == "misc" {
        MiscApart(pieces[k], mans[k], misc, Small(mans, chip, c), chip, c, l, j);
      } else {
        ManNames(pieces[k], mans[k], chip, c);
        if pieces[k][l].name == misc[j].name {
          KeyTold(misc[j].name, mans[k].key, "misc", Label(chip));
        }
      }
    }
    JoinNames(Flat(pieces), misc);
  }

  /** The names of a chip family's groups are all different exactly when there is no such manufacturer called `misc`. */
  lemma {:induction false} NamesDiffer(family: seq<Group>, mans: seq<Entry<string>>, pieces: seq<seq<Group>>,
                                       misc: seq<Group>, chip: string, c: Config)
    requires c.Valid() && ChipLaid(family, mans, pieces, misc, chip, c) && DistinctKeys(mans) && IsWord(Label(chip))
    ensures DistinctNames(family) <==> !MiscClash(mans, chip, c)
  {
    hide ChipLaid, Small, DistinctKeys, DistinctNames, Clashing, IsWord;
    if MiscClash(mans, chip, c) {
      var k :| 0 <= k < |mans| && mans[k].key == "misc" && Clashing(|mans[k].targets|, Small(mans, chip, c), chip, c);
      ClashMeets(family, mans, pieces, misc, chip, c, k);
    } else {
      NoClash(family, mans, pieces, misc, chip, c);
    }
  }

  /** Any other manufacturer's group is the only one of its name. */
  lemma {:induction false} OnlyGroup(family: seq<Group>, manufacturers: seq<Entry<string>>, chip: string, key: string,
                                     c: Config, i: nat, j: nat)
    requires c.Valid() && FamilyLaid(family, manufacturers, chip, c) && IsWord(Label(chip)) && key != "misc"
    requires i < |family| && j < |family| && NamedFor(family[i].name, key, Label(chip))
    requires family[i].name == family[j].name
    ensures i == j
  {
    hide Flat, Small, NamedFor, IsWord, DistinctKeys, MansLaid, MiscLaid, Share, Lookup, Ascending, NoneEmpty;
    var mans, pieces, misc: seq<Group> :|
      Shares(mans, manufacturers, chip, c) && ChipLaid(family, mans, pieces, misc, chip, c);
    FlatNames(pieces, mans, chip, c);
    MiscNames(misc, Small(mans, chip, c), chip, c);
    forall k: nat | k < |family| && NamedFor(family[k].name, key, Label(chip))
      ensures k < |Flat(pieces)|
    {
      if k >= |Flat(pieces)| {
        assert NamedFor(misc[k - |Flat(pieces)|].name, "misc", Label(chip));
        KeyTold(family[k].name, key, "misc", Label(chip));
      }
    }
    assert family[i] == Flat(pieces)[i] && family[j] == Flat(pieces)[j];
  }
}
