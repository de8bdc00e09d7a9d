/** The rule `getOrCreateActivite` applies to the `activites` table, as a
    function of the table before the call: which row it returns and how the
    table looks afterwards. The store's imperative helper is proved equal to
    it. */
module ActivityRule {
  import opened Php
  import opened Tables
  import opened Entities

  const Separator: string := " - "

  /** `head` is everything before the first " - " of `libelle`, `tail`
      everything after it. */
  predicate SeparatedAt(libelle: string, head: string, tail: string) {
    libelle == head + Separator + tail
    && forall j :: 0 <= j < |head| ==> !OccursAt(libelle, Separator, j)
  }

  /** The label and code the lookups use. */
  datatype Split = Split(libelle: string, code: Option<string>)

  /** A label given without a code is split at its first " - " into a
      trimmed label and a trimmed code. */
  function SplitLabel(libelle: string, code: Option<string>): (r: Split)
    ensures code.Some? || !Contains(libelle, Separator) ==> r == Split(libelle, code)
    ensures code.None? && Contains(libelle, Separator) ==>
      exists head, tail :: SeparatedAt(libelle, head, tail) && r == Split(Trim(head), Some(Trim(tail)))
  {
    if code.None? && Contains(libelle, Separator) then
      var i := IndexOf(libelle, Separator).value;
      SeparatedAtFirst(libelle, i);
      Split(Trim(libelle[..i]), Some(Trim(libelle[i + |Separator|..])))
    else Split(libelle, code)
  }

  /** The first " - " of a label separates it. */
  lemma SeparatedAtFirst(libelle: string, i: nat)
    requires IndexOf(libelle, Separator) == Some(i)
    ensures i + |Separator| <= |libelle|
    ensures SeparatedAt(libelle, libelle[..i], libelle[i + |Separator|..])
  {
    SplitFirstParts(libelle, Separator, i);
  }

  /** The first separator is the one that splits: `SplitLabel`'s parts are
      determined by it, and the code keeps any later " - ". */
  lemma SeparatedUnique(libelle: string, head: string, tail: string)
    requires SeparatedAt(libelle, head, tail)
    ensures SplitLabel(libelle, None) == Split(Trim(head), Some(Trim(tail)))
  {
    assert OccursAt(libelle, Separator, |head|) by {
      assert libelle[|head|..|head| + 3] == Separator;
    }
    assert IndexOf(libelle, Separator) == Some(|head|);
    assert libelle[..|head|] == head;
    assert libelle[|head| + 3..] == tail;
  }

  /** A code that is neither NULL nor ''. */
  predicate Filled(code: Option<string>) {
    code.Some? && code.value != ""
  }

  /** The activities table after a call and the id the call returns. */
  datatype Resolution = Resolution(table: seq<Activite>, id: nat)

  /** `SELECT id FROM activites WHERE code = ?`, as a row index. */
  function ByCode(acts: seq<Activite>, c: Option<string>): Option<nat> {
    FirstIndex(acts, (a: Activite) => a.code == c)
  }

  /** `SELECT id FROM activites WHERE libelle = ?`, as a row index. */
  function ByLabel(acts: seq<Activite>, l: string): Option<nat> {
    FirstIndex(acts, (a: Activite) => a.libelle == l)
  }

  /** The lookups of `getOrCreateActivite` once the label is split: the
      row with this code, else the row with this label (filling in a
      missing code), else a new row. */
  function Lookup(acts: seq<Activite>, sp: Split): (r: Resolution)
    ensures 1 <= r.id <= |r.table|
    ensures |acts| <= |r.table| <= |acts| + 1
  {
    var byCode := if sp.code.Some? then ByCode(acts, sp.code) else None;
    if byCode.Some? then Resolution(acts, byCode.value + 1)
    else
      match ByLabel(acts, sp.libelle)
      case None => Resolution(acts + [Activite(sp.libelle, sp.code)], |acts| + 1)
      case Some(i) =>
        if sp.code.Some? && !Filled(acts[i].code) then Resolution(acts[i := acts[i].(code := sp.code)], i + 1)
        else Resolution(acts, i + 1)
  }

  /** `getOrCreateActivite(libelle, code)` on the table `acts`. */
  function Resolve(acts: seq<Activite>, libelle: string, code: Option<string>): (r: Resolution)
    ensures 1 <= r.id <= |r.table|
    ensures |acts| <= |r.table| <= |acts| + 1
  {
    Lookup(acts, SplitLabel(libelle, code))
  }

  /** Labels are never rewritten, a filled code is never overwritten, and
      only the returned row can change. */
  lemma ResolveKeeps(acts: seq<Activite>, libelle: string, code: Option<string>)
    ensures var r := Resolve(acts, libelle, code);
      && (forall j :: 0 <= j < |acts| ==> r.table[j].libelle == acts[j].libelle)
      && (forall j :: 0 <= j < |acts| && (Filled(acts[j].code) || j != r.id - 1) ==> r.table[j] == acts[j])
  {
  }

  /** A row found by its code is returned with no write. */
  lemma ResolveByCode(acts: seq<Activite>, libelle: string, code: Option<string>, k: nat)
    requires var c := SplitLabel(libelle, code).code;
      c.Some? && k < |acts| && acts[k].code == c
    ensures var r := Resolve(acts, libelle, code);
      var c := SplitLabel(libelle, code).code;
      r.table == acts && acts[r.id - 1].code == c
      && forall j :: 0 <= j < r.id - 1 ==> acts[j].code != c
  {
  }

  /** Otherwise a row found by its label is returned, and a missing code
      is filled in. */
  lemma ResolveByLabel(acts: seq<Activite>, libelle: string, code: Option<string>, k: nat)
    requires var sp := SplitLabel(libelle, code);
      (sp.code.None? || forall j :: 0 <= j < |acts| ==> acts[j].code != sp.code)
      && k < |acts| && acts[k].libelle == sp.libelle
    ensures var r := Resolve(acts, libelle, code);
      var sp := SplitLabel(libelle, code);
      r.id <= |acts| && acts[r.id - 1].libelle == sp.libelle
      && (forall j :: 0 <= j < r.id - 1 ==> acts[j].libelle != sp.libelle)
      && r.table[r.id - 1].code == (if sp.code.Some? && !Filled(acts[r.id - 1].code) then sp.code else acts[r.id - 1].code)
  {
  }

  /** Otherwise exactly one row is appended and returned. */
  lemma ResolveAppends(acts: seq<Activite>, libelle: string, code: Option<string>)
    requires var sp := SplitLabel(libelle, code);
      (sp.code.None? || forall j :: 0 <= j < |acts| ==> acts[j].code != sp.code)
      && (forall j :: 0 <= j < |acts| ==> acts[j].libelle != sp.libelle)
    ensures var sp := SplitLabel(libelle, code);
      Resolve(acts, libelle, code) == Resolution(acts + [Activite(sp.libelle, sp.code)], |acts| + 1)
  {
  }

  /** Calling twice with the same arguments returns the same id, and the
      second call writes nothing. */
  lemma ResolveTwice(acts: seq<Activite>, libelle: string, code: Option<string>)
    ensures var r := Resolve(acts, libelle, code);
      Resolve(r.table, libelle, code) == r
  {
    var sp := SplitLabel(libelle, code);
    var l, c := sp.libelle, sp.code;
    var byCode := if c.Some? then ByCode(acts, c) else None;
    if byCode.None? {
      match ByLabel(acts, l)
      case None => ResolveTwiceAppended(acts, libelle, code);
      case Some(i) =>
        if c.Some? && !Filled(acts[i].code) {
          ResolveTwiceFilled(acts, libelle, code, i);
        }
    }
  }

  /** The second call finds the row the first call appended: by its code
      when there is one, else by its label, which no earlier row has. */
  lemma ResolveTwiceAppended(acts: seq<Activite>, libelle: string, code: Option<string>)
    requires var sp := SplitLabel(libelle, code);
      (sp.code.None? || ByCode(acts, sp.code).None?) && ByLabel(acts, sp.libelle).None?
    ensures var r := Resolve(acts, libelle, code);
      Resolve(r.table, libelle, code) == r
  {
    var sp := SplitLabel(libelle, code);
    var l, c := sp.libelle, sp.code;
    var t := acts + [Activite(l, c)];
    assert t[|acts|] == Activite(l, c);
    if c.Some? {
      assert ByCode(t, c) == Some(|acts|);
    } else {
      assert ByLabel(t, l) == Some(|acts|);
    }
  }

  /** The second call finds the row whose code the first call filled in,
      by that code, which no other row has. */
  lemma ResolveTwiceFilled(acts: seq<Activite>, libelle: string, code: Option<string>, i: nat)
    requires var sp := SplitLabel(libelle, code);
      sp.code.Some? && ByCode(acts, sp.code).None? && ByLabel(acts, sp.libelle) == Some(i) && !Filled(acts[i].code)
    ensures var r := Resolve(acts, libelle, code);
      Resolve(r.table, libelle, code) == r
  {
    var c := SplitLabel(libelle, code).code;
    var t := acts[i := acts[i].(code := c)];
    assert t[i].code == c;
    var k := ByCode(t, c);
    assert k.Some?;
    assert k.value == i;
  }

  /** Repeated calls grow the table by at most one row in total. */
  lemma ResolveGrowsByAtMostOne(acts: seq<Activite>, libelle: string, code: Option<string>)
    ensures var r := Resolve(acts, libelle, code);
      |Resolve(r.table, libelle, code).table| <= |acts| + 1
  {
    ResolveTwice(acts, libelle, code);
  }
}
