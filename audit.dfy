/** The participant audit page's search filter and totals
    (src/pages/AuditoriaParticipantes.tsx). */
module Audit {
  import opened Common

  /** A row of the audit list. */
  datatype AuditUser = AuditUser(
    id: int,
    nombre: string,
    email: Option<string>,
    numeroEmpleado: Option<string>,
    totalPuntos: int,
    totalConcursos: int,
    totalTrivias: int)

  /** A field that may be null takes part in the search only when it is truthy. */
  predicate FieldMatches(field: Option<string>, term: string)
  {
    Truthy(field) && Includes(ToLower(field.value), term)
  }

  /** The filter callback for an already lower-cased term. */
  predicate Matches(u: AuditUser, term: string)
  {
    Includes(ToLower(u.nombre), term) || FieldMatches(u.email, term) || FieldMatches(u.numeroEmpleado, term)
  }

  /** `usuarios.filter(u => Matches(u, term))` */
  function KeepMatching(users: seq<AuditUser>, term: string): seq<AuditUser>
    decreases |users|
  {
    if users == [] then []
    else (if Matches(users[0], term) then [users[0]] else []) + KeepMatching(users[1..], term)
  }

  /** The filter keeps exactly the matching users. */
  lemma {:induction false} KeepMatchingMembers(users: seq<AuditUser>, term: string, u: AuditUser)
    ensures u in KeepMatching(users, term) <==> u in users && Matches(u, term)
    decreases |users|
  {
    if users != [] {
      KeepMatchingMembers(users[1..], term, u);
      assert users == [users[0]] + users[1..];
    }
  }

  /** The users the page lists for a search term: all of them when the term is blank,
      otherwise those matching the lower-cased (untrimmed) term. */
  function FilterUsers(users: seq<AuditUser>, searchTerm: string): seq<AuditUser>
  {
    if Trim(searchTerm) == "" then users else KeepMatching(users, ToLower(searchTerm))
  }

  /** A blank or whitespace-only term lists everyone. */
  lemma BlankTermListsAll(users: seq<AuditUser>, searchTerm: string)
    requires AllWhitespace(searchTerm)
    ensures FilterUsers(users, searchTerm) == users
  {
    TrimEmptyIffBlank(searchTerm);
  }

  /** A non-blank term lists exactly the users with the lower-cased term in the
      lower-cased name, email or employee number; null fields never match. */
  lemma NonBlankTermFilters(users: seq<AuditUser>, searchTerm: string, u: AuditUser)
    requires !AllWhitespace(searchTerm)
    ensures u in FilterUsers(users, searchTerm) <==>
              u in users && (Includes(ToLower(u.nombre), ToLower(searchTerm))
                             || (u.email.Some? && u.email.value != "" && Includes(ToLower(u.email.value), ToLower(searchTerm)))
                             || (u.numeroEmpleado.Some? && u.numeroEmpleado.value != ""
                                 && Includes(ToLower(u.numeroEmpleado.value), ToLower(searchTerm))))
  {
    TrimEmptyIffBlank(searchTerm);
    KeepMatchingMembers(users, ToLower(searchTerm), u);
  }

  /** The filter keeps the list's order: it filters each part of a concatenation. */
  lemma {:induction false} KeepMatchingAppend(a: seq<AuditUser>, b: seq<AuditUser>, term: string)
    ensures KeepMatching(a + b, term) == KeepMatching(a, term) + KeepMatching(b, term)
    decreases |a|
  {
    if a != [] {
      assert (a + b)[1..] == a[1..] + b;
      KeepMatchingAppend(a[1..], b, term);
      var head := if Matches(a[0], term) then [a[0]] else [];
      assert KeepMatching(a + b, term) == head + KeepMatching(a[1..] + b, term);
      assert KeepMatching(a, term) == head + KeepMatching(a[1..], term);
    } else {
      assert a + b == b;
    }
  }

  /** The term is not trimmed before matching: " ana" does not find a user named
      "Ana" who has no email or employee number. */
  lemma LeadingSpaceMissesName()
    ensures FilterUsers([AuditUser(1, "Ana", None, None, 0, 0, 0)], " ana") == []
  {
    var u := AuditUser(1, "Ana", None, None, 0, 0, 0);
    assert ToLower(" ana") == " ana";
    assert Trim(" ana") != "" by {
      assert !IsWhitespace(" ana"[1]);
      TrimEmptyIffBlank(" ana");
    }
    assert |ToLower(u.nombre)| == 3;
    assert !Includes(ToLower(u.nombre), " ana");
    assert !Matches(u, " ana");
    assert [u][1..] == [];
  }

  // ---------------------------------------------------------------------------
  // Totals over all users
  // ---------------------------------------------------------------------------

  /** `usuarios.reduce((sum, u) => sum + u.totalPuntos, 0)` */
  function TotalPuntosGeneral(users: seq<AuditUser>): int
    decreases |users|
  {
    if users == [] then 0 else TotalPuntosGeneral(users[..|users| - 1]) + users[|users| - 1].totalPuntos
  }

  /** `usuarios.reduce((sum, u) => sum + u.totalConcursos + u.totalTrivias, 0)` */
  function TotalParticipaciones(users: seq<AuditUser>): int
    decreases |users|
  {
    if users == [] then 0
    else TotalParticipaciones(users[..|users| - 1]) + users[|users| - 1].totalConcursos + users[|users| - 1].totalTrivias
  }

  lemma {:induction false} TotalsAppend(a: seq<AuditUser>, b: seq<AuditUser>)
    ensures TotalPuntosGeneral(a + b) == TotalPuntosGeneral(a) + TotalPuntosGeneral(b)
    ensures TotalParticipaciones(a + b) == TotalParticipaciones(a) + TotalParticipaciones(b)
    decreases |b|
  {
    if b != [] {
      var b' := b[..|b| - 1];
      assert (a + b)[..|a + b| - 1] == a + b';
      TotalsAppend(a, b');
    } else {
      assert a + b == a;
    }
  }

  /** `usuarios.filter(u => !Matches(u, term))`: the users a search hides. */
  function KeepOthers(users: seq<AuditUser>, term: string): seq<AuditUser>
    decreases |users|
  {
    if users == [] then []
    else (if Matches(users[0], term) then [] else [users[0]]) + KeepOthers(users[1..], term)
  }

  /** The totals count every user, not just those the search shows: they are the
      totals of the shown users plus those of the hidden ones. */
  lemma {:induction false} TotalsCoverHiddenUsers(users: seq<AuditUser>, term: string)
    ensures TotalPuntosGeneral(users)
            == TotalPuntosGeneral(KeepMatching(users, term)) + TotalPuntosGeneral(KeepOthers(users, term))
    ensures TotalParticipaciones(users)
            == TotalParticipaciones(KeepMatching(users, term)) + TotalParticipaciones(KeepOthers(users, term))
    decreases |users|
  {
    if users != [] {
      TotalsCoverHiddenUsers(users[1..], term);
      assert users == [users[0]] + users[1..];
      TotalsAppend([users[0]], users[1..]);
      var shown := if Matches(users[0], term) then [users[0]] else [];
      var hidden := if Matches(users[0], term) then [] else [users[0]];
      TotalsAppend(shown, KeepMatching(users[1..], term));
      TotalsAppend(hidden, KeepOthers(users[1..], term));
      assert TotalPuntosGeneral([]) == 0 && TotalParticipaciones([]) == 0;
      assert [users[0]][..0] == [];
    }
  }
}
