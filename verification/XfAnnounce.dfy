/**
 What the X11 clipboard announces (client/X11/xf_cliprdr.c): the format list made from X targets, and the test
 whether a list differs from the one sent last.
 */
module XfAnnounce {
  import opened Common
  import opened XfFormats

  // --- Whether a list differs from the one sent last ---

  /** The test of xf_clipboard_changed, negated. */
  predicate Same(last: seq<Format>, formats: seq<Format>)
  {
    |last| == |formats| && forall f :: f in last ==> f in formats
  }

  predicate Distinct<T(==)>(s: seq<T>)
  {
    forall i, j :: 0 <= i < j < |s| ==> s[i] != s[j]
  }

  method FormatEqual(a: Format, b: Format) returns (equal: bool)
    ensures equal <==> a == b
  {
    if a.id != b.id { return false; }
    if a.name.None? && b.name.None? { return true; }
    if a.name.None? || b.name.None? { return false; }
    return a.name.value == b.name.value;
  }

  method Changed(last: seq<Format>, formats: seq<Format>) returns (changed: bool)
    ensures changed == !Same(last, formats)
  {
    if |last| != |formats| { return true; }
    for x := 0 to |formats|
      invariant forall i :: 0 <= i < x ==> last[i] in formats
    {
      var contained := false;
      for y := 0 to |formats|
        invariant contained <==> last[x] in formats[..y]
      {
        assert formats[..y + 1] == formats[..y] + [formats[y]];
        var equal := FormatEqual(last[x], formats[y]);
        if equal { contained := true; }
      }
      assert formats[..|formats|] == formats;
      if !contained { return true; }
    }
    return false;
  }

  function Without(s: seq<Format>, j: nat): seq<Format>
    requires j < |s|
  {
    s[..j] + s[j + 1..]
  }

  lemma WithoutOne(s: seq<Format>, j: nat, f: Format)
    requires j < |s|
    ensures multiset(s) == multiset(Without(s, j)) + multiset{s[j]}
    ensures f in s && f != s[j] ==> f in Without(s, j)
  {
    assert s == s[..j] + [s[j]] + s[j + 1..];
  }

  /** The pigeonhole step: a list without repetition that another of the same length contains is a permutation of it. */
  lemma {:induction false} ContainedIsPermutation(a: seq<Format>, b: seq<Format>)
    requires Distinct(a) && |a| == |b| && forall f :: f in a ==> f in b
    ensures multiset(a) == multiset(b)
    decreases |a|
  {
    if |a| > 0 {
      assert a[0] in b;
      var j :| 0 <= j < |b| && b[j] == a[0];
      var a', b' := a[1..], Without(b, j);
      assert a == [a[0]] + a';
      forall f | f in a' ensures f in b' {
        assert f in a && f != a[0];
        WithoutOne(b, j, f);
      }
      WithoutOne(b, j, a[0]);
      ContainedIsPermutation(a', b');
    }
  }

  lemma PermutationIsSame(last: seq<Format>, formats: seq<Format>)
    requires multiset(last) == multiset(formats)
    ensures Same(last, formats)
  {
    assert |multiset(last)| == |last| && |multiset(formats)| == |formats|;
    forall f | f in last ensures f in formats {
      assert f in multiset(last);
    }
  }

  /** No permutation counts as a change, and after a last list without repetition everything else does. */
  lemma SameIsPermutation(last: seq<Format>, formats: seq<Format>)
    ensures multiset(last) == multiset(formats) ==> Same(last, formats)
    ensures Distinct(last) && Same(last, formats) ==> multiset(last) == multiset(formats)
  {
    if multiset(last) == multiset(formats) { PermutationIsSame(last, formats); }
    if Distinct(last) && Same(last, formats) { ContainedIsPermutation(last, formats); }
  }

  /** A format that is in no list of these. */
  function FreshId(fs: seq<Format>): (id: nat)
    ensures forall f :: f in fs ==> f.id < id
  {
    if |fs| == 0 then 0
    else
      assert fs == fs[..|fs| - 1] + [fs[|fs| - 1]];
      var id := FreshId(fs[..|fs| - 1]);
      if fs[|fs| - 1].id < id then id else fs[|fs| - 1].id + 1
  }

  /** Every list with a repetition hides a change: one of the equal entries replaced by a new format. */
  lemma RepetitionHidesChange(last: seq<Format>) returns (formats: seq<Format>)
    requires !Distinct(last)
    ensures Same(last, formats) && multiset(last) != multiset(formats)
  {
    var i, j :| 0 <= i < j < |last| && last[i] == last[j];
    var added := Format(FreshId(last), None);
    formats := last[j := added];
    forall f | f in last ensures f in formats {
      var k :| 0 <= k < |last| && last[k] == f;
      assert formats[if k == j then i else k] == f;
    }
    assert formats[j] == added && added in multiset(formats);
    assert added !in last && added !in multiset(last);
  }

  /** The test tells exactly the permutations of the last list from all other lists, if and only if the last list holds
      no format twice. */
  lemma ChangeTestExact(last: seq<Format>)
    ensures (forall formats :: Same(last, formats) <==> multiset(last) == multiset(formats)) <==> Distinct(last)
  {
    if Distinct(last) {
      forall formats ensures Same(last, formats) <==> multiset(last) == multiset(formats) {
        SameIsPermutation(last, formats);
      }
    } else {
      var formats := RepetitionHidesChange(last);
    }
  }

  // --- The list made from X targets ---

  /** The first client format with this atom. */
  function ByAtom(clients: seq<ClientFormat>, atom: nat): (r: Option<ClientFormat>)
    ensures r.Some? ==> r.value in clients && r.value.atom == atom
    ensures r.None? ==> forall c :: c in clients ==> c.atom != atom
  {
    if |clients| == 0 then None
    else if clients[0].atom == atom then Some(clients[0])
    else ByAtom(clients[1..], atom)
  }

  /** The first client format with this id. */
  function ById(clients: seq<ClientFormat>, id: nat): (r: Option<ClientFormat>)
    ensures r.Some? ==> r.value in clients && r.value.toRequest == id
    ensures r.None? ==> forall c :: c in clients ==> c.toRequest != id
  {
    if |clients| == 0 then None
    else if clients[0].toRequest == id then Some(clients[0])
    else ById(clients[1..], id)
  }

  /** It is the first one. */
  lemma {:induction false} ByAtomIsFirst(clients: seq<ClientFormat>, atom: nat) returns (k: nat)
    requires ByAtom(clients, atom).Some?
    ensures k < |clients| && ByAtom(clients, atom) == Some(clients[k])
    ensures forall i :: 0 <= i < k ==> clients[i].atom != atom
  {
    k := 0;
    if clients[0].atom != atom {
      var j := ByAtomIsFirst(clients[1..], atom);
      k := j + 1;
      assert forall i :: 0 < i < k ==> clients[i] == clients[1..][i - 1];
    }
  }

  lemma {:induction false} ByIdIsFirst(clients: seq<ClientFormat>, id: nat) returns (k: nat)
    requires ById(clients, id).Some?
    ensures k < |clients| && ById(clients, id) == Some(clients[k])
    ensures forall i :: 0 <= i < k ==> clients[i].toRequest != id
  {
    k := 0;
    if clients[0].toRequest != id {
      var j := ByIdIsFirst(clients[1..], id);
      k := j + 1;
      assert forall i :: 0 < i < k ==> clients[i] == clients[1..][i - 1];
    }
  }

  predicate HasId(fs: seq<Format>, id: nat) { exists f :: f in fs && f.id == id }

  function FromTargets(clients: seq<ClientFormat>, atoms: seq<nat>): seq<Format>
  {
    if |atoms| == 0 then []
    else
      var before, c := FromTargets(clients, atoms[..|atoms| - 1]), ByAtom(clients, atoms[|atoms| - 1]);
      if c.None? || HasId(before, c.value.toRequest) then before
      else before + [Format(c.value.toRequest, c.value.name)]
  }

  /** The id belongs to the client format that one of the targets selects. */
  ghost predicate Selects(clients: seq<ClientFormat>, atoms: seq<nat>, id: nat)
  {
    exists a :: a in atoms && ByAtom(clients, a).Some? && ByAtom(clients, a).value.toRequest == id
  }

  ghost predicate DistinctIds(fs: seq<Format>)
  {
    forall i, j :: 0 <= i < j < |fs| ==> fs[i].id != fs[j].id
  }

  /** Ids are pairwise distinct, and they are just the ids of the client formats that the targets select. */
  lemma {:induction false} FromTargetsIds(clients: seq<ClientFormat>, atoms: seq<nat>, id: nat)
    ensures var fs := FromTargets(clients, atoms);
            DistinctIds(fs) && Distinct(fs) && (HasId(fs, id) <==> Selects(clients, atoms, id))
  {
    if |atoms| > 0 {
      var before, last := atoms[..|atoms| - 1], atoms[|atoms| - 1];
      FromTargetsIds(clients, before, id);
      assert atoms == before + [last];
      assert Selects(clients, atoms, id) <==>
               Selects(clients, before, id) ||
               (ByAtom(clients, last).Some? && ByAtom(clients, last).value.toRequest == id);
      var prev, fs := FromTargets(clients, before), FromTargets(clients, atoms);
      if fs != prev {
        var f := fs[|prev|];
        assert fs == prev + [f];
        assert HasId(fs, id) <==> HasId(prev, id) || f.id == id by {
          assert f in fs;
          assert forall g :: g in prev ==> g in fs;
        }
        assert forall i :: 0 <= i < |prev| ==> prev[i] in prev;
      }
    }
  }

  /** Target k selects a client format with an id that no target before it selects. */
  ghost predicate FirstWithId(clients: seq<ClientFormat>, atoms: seq<nat>, k: nat)
  {
    && k < |atoms| && ByAtom(clients, atoms[k]).Some?
    && !Selects(clients, atoms[..k], ByAtom(clients, atoms[k]).value.toRequest)
  }

  /** Format i of the list has the id and the name of the client format that target ks[i] selects, the first with its
      id, in the order of the targets. */
  ghost predicate Chosen(clients: seq<ClientFormat>, atoms: seq<nat>, fs: seq<Format>, ks: seq<nat>)
  {
    && |ks| == |fs|
    && (forall i :: 0 <= i < |ks| ==>
          && FirstWithId(clients, atoms, ks[i])
          && var c := ByAtom(clients, atoms[ks[i]]).value; fs[i].id == c.toRequest && fs[i].name == c.name)
    && (forall i, j :: 0 <= i < j < |ks| ==> ks[i] < ks[j])
    && (forall k :: FirstWithId(clients, atoms, k) ==> k in ks)
  }

  lemma FirstWithIdBefore(clients: seq<ClientFormat>, atoms: seq<nat>, k: nat)
    requires k < |atoms| - 1
    ensures FirstWithId(clients, atoms, k) <==> FirstWithId(clients, atoms[..|atoms| - 1], k)
  {
    assert atoms[..|atoms| - 1][..k] == atoms[..k];
  }

  lemma ChosenStays(clients: seq<ClientFormat>, before: seq<nat>, atoms: seq<nat>, fs: seq<Format>, ks: seq<nat>)
    requires |atoms| > 0 && before == atoms[..|atoms| - 1] && Chosen(clients, before, fs, ks)
    requires !FirstWithId(clients, atoms, |atoms| - 1)
    ensures Chosen(clients, atoms, fs, ks)
  {
    forall k: nat | k < |before| ensures FirstWithId(clients, atoms, k) <==> FirstWithId(clients, before, k) {
      FirstWithIdBefore(clients, atoms, k);
    }
  }

  lemma ChosenGrows(clients: seq<ClientFormat>, before: seq<nat>, atoms: seq<nat>, fs: seq<Format>, ks: seq<nat>,
                    f: Format)
    requires |atoms| > 0 && before == atoms[..|atoms| - 1] && Chosen(clients, before, fs, ks)
    requires FirstWithId(clients, atoms, |atoms| - 1)
    requires var c := ByAtom(clients, atoms[|atoms| - 1]).value; f.id == c.toRequest && f.name == c.name
    ensures Chosen(clients, atoms, fs + [f], ks + [|atoms| - 1])
  {
    forall k: nat | k < |before| ensures FirstWithId(clients, atoms, k) <==> FirstWithId(clients, before, k) {
      FirstWithIdBefore(clients, atoms, k);
    }
  }

  /** The list made from targets holds one format for each client format that the targets select, leaving out repeated
      ids. */
  lemma {:induction false} FromTargetsExact(clients: seq<ClientFormat>, atoms: seq<nat>) returns (ks: seq<nat>)
    ensures Chosen(clients, atoms, FromTargets(clients, atoms), ks)
    decreases |atoms|
  {
    if |atoms| == 0 {
      ks := [];
    } else {
      var n := |atoms| - 1;
      ks := FromTargetsExact(clients, atoms[..n]);
      var c := ByAtom(clients, atoms[n]);
      if c.Some? { FromTargetsIds(clients, atoms[..n], c.value.toRequest); }
      if FirstWithId(clients, atoms, n) {
        var f := Format(c.value.toRequest, c.value.name);
        ChosenGrows(clients, atoms[..n], atoms, FromTargets(clients, atoms[..n]), ks, f);
        ks := ks + [n];
      } else {
        ChosenStays(clients, atoms[..n], atoms, FromTargets(clients, atoms[..n]), ks);
      }
    }
  }

  method ClientFormatByAtom(clients: seq<ClientFormat>, atom: nat) returns (r: Option<ClientFormat>)
    ensures r == ByAtom(clients, atom)
  {
    assert clients[0..] == clients;
    for i := 0 to |clients|
      invariant ByAtom(clients[i..], atom) == ByAtom(clients, atom)
    {
      assert clients[i..][1..] == clients[i + 1..];
      if clients[i].atom == atom { return Some(clients[i]); }
    }
    return None;
  }

  method ClientFormatById(clients: seq<ClientFormat>, id: nat) returns (r: Option<ClientFormat>)
    ensures r == ById(clients, id)
  {
    assert clients[0..] == clients;
    for i := 0 to |clients|
      invariant ById(clients[i..], id) == ById(clients, id)
    {
      assert clients[i..][1..] == clients[i + 1..];
      if clients[i].toRequest == id { return Some(clients[i]); }
    }
    return None;
  }

  method ShouldAddFormat(formats: seq<Format>, c: Option<ClientFormat>) returns (add: bool)
    ensures add == (c.Some? && !HasId(formats, c.value.toRequest))
  {
    if c.None? { return false; }
    for x := 0 to |formats|
      invariant forall i :: 0 <= i < x ==> formats[i].id != c.value.toRequest
    {
      if formats[x].id == c.value.toRequest { return false; }
    }
    return true;
  }

  method FormatsFromTargets(clients: seq<ClientFormat>, atoms: seq<nat>) returns (formats: seq<Format>)
    ensures formats == FromTargets(clients, atoms)
  {
    formats := [];
    for i := 0 to |atoms|
      invariant formats == FromTargets(clients, atoms[..i])
    {
      assert atoms[..i + 1][..i] == atoms[..i];
      var c := ClientFormatByAtom(clients, atoms[i]);
      var add := ShouldAddFormat(formats, c);
      if add { formats := formats + [Format(c.value.toRequest, c.value.name)]; }
    }
    assert atoms[..|atoms|] == atoms;
  }
}
