/** The file-backed user store: create, set role, set password and delete, none of which may lose the last admin. */
module Users {
  import opened Wrappers
  import opened WhiteSpace

  datatype Name = Name(text: string)

  // A hand-edited file may hold any text as a role.
  datatype Role = Viewer | Operator | Admin | OtherRole(text: string)

  // The salted hash of a password
  datatype Hash = HashOf(password: string)

  datatype Entry = Entry(username: Name, role: Role, passwordHash: Option<Hash>, password: Option<string>)

  datatype Refusal = Invalid | NoSuchUser | LastAdmin

  // The index of the first entry of this name
  function Find(es: seq<Entry>, u: Name): (i: Option<nat>)
    ensures i.Some? ==> i.value < |es| && es[i.value].username == u
  {
    if es == [] then None
    else
      var front := Find(es[..|es| - 1], u);
      if front.Some? then front else if es[|es| - 1].username == u then Some(|es| - 1) else None
  }

  function AdminCount(es: seq<Entry>): nat {
    if es == [] then 0 else AdminCount(es[..|es| - 1]) + if es[|es| - 1].role == Admin then 1 else 0
  }

  function Drop(es: seq<Entry>, u: Name): seq<Entry> {
    if es == [] then []
    else
      var front, e := Drop(es[..|es| - 1], u), es[|es| - 1];
      if e.username == u then front else front + [e]
  }

  ghost predicate UniqueNames(es: seq<Entry>) {
    es == [] || (Find(es[..|es| - 1], es[|es| - 1].username).None? && UniqueNames(es[..|es| - 1]))
  }

  ghost predicate Sound(es: seq<Entry>) { UniqueNames(es) && AdminCount(es) >= 1 }

  datatype Call = Create(username: string, role: Role, password: string) | ChangeRole(u: Name, newRole: Role)
                | ChangePassword(u: Name, newPassword: string) | Delete(u: Name)

  // How a role change is answered: only a demotion of the one remaining admin is refused for its effect.
  function RoleAnswer(es: seq<Entry>, u: Name, role: Role): (r: Result<(), Refusal>)
    ensures r.Ok? ==> Find(es, u).Some?
  {
    if role.OtherRole? then Err(Invalid)
    else if Find(es, u).None? then Err(NoSuchUser)
    else if es[Find(es, u).value].role == Admin && role != Admin && AdminCount(es) <= 1 then Err(LastAdmin)
    else Ok(())
  }

  // The guard of delete: the user exists, and is not the last admin as counted over all entries.
  predicate DeleteAccepted(es: seq<Entry>, u: Name) {
    Find(es, u).Some? && !(es[Find(es, u).value].role == Admin && AdminCount(es) <= 1)
  }

  lemma AppendEntry(es: seq<Entry>, e: Entry)
    ensures AdminCount(es + [e]) == AdminCount(es) + if e.role == Admin then 1 else 0
    ensures UniqueNames(es) && Find(es, e.username).None? ==> UniqueNames(es + [e])
  {
    assert (es + [e])[..|es|] == es;
  }

  lemma {:induction false} AdminAtIndex(es: seq<Entry>, i: nat)
    requires i < |es|
    ensures es[i].role == Admin ==> AdminCount(es) >= 1
  {
    if i < |es| - 1 { AdminAtIndex(es[..|es| - 1], i); }
  }

  lemma {:induction false} FindSame(es: seq<Entry>, i: nat, e: Entry, u: Name)
    requires i < |es| && e.username == es[i].username
    ensures Find(es[i := e], u) == Find(es, u)
  {
    if i < |es| - 1 {
      assert es[i := e][..|es| - 1] == es[..|es| - 1][i := e];
      FindSame(es[..|es| - 1], i, e, u);
    } else {
      assert es[i := e][..|es| - 1] == es[..|es| - 1];
    }
  }

  // Changing an entry in place, but not its name, moves the count of admins by that entry alone.
  lemma {:induction false} UpdateEntry(es: seq<Entry>, i: nat, e: Entry)
    requires i < |es| && e.username == es[i].username
    ensures AdminCount(es[i := e]) ==
            AdminCount(es) - (if es[i].role == Admin then 1 else 0) + (if e.role == Admin then 1 else 0)
    ensures UniqueNames(es) ==> UniqueNames(es[i := e])
  {
    var front, last := es[..|es| - 1], es[|es| - 1];
    if i < |es| - 1 {
      assert es[i := e][..|es| - 1] == front[i := e];
      UpdateEntry(front, i, e);
      FindSame(front, i, e, last.username);
    } else {
      assert es[i := e][..|es| - 1] == front;
    }
  }

  lemma {:induction false} FindInDrop(es: seq<Entry>, u: Name, v: Name)
    requires Find(es, v).None?
    ensures Find(Drop(es, u), v).None?
  {
    if es == [] {
    } else {
      var front, e := es[..|es| - 1], es[|es| - 1];
      FindInDrop(front, u, v);
      assert (Drop(front, u) + [e])[..|Drop(front, u)|] == Drop(front, u);
    }
  }

  lemma {:induction false} DropKeepsUnique(es: seq<Entry>, u: Name)
    requires UniqueNames(es)
    ensures UniqueNames(Drop(es, u))
  {
    if es == [] {
    } else {
      var front, e := es[..|es| - 1], es[|es| - 1];
      DropKeepsUnique(front, u);
      FindInDrop(front, u, e.username);
      AppendEntry(Drop(front, u), e);
    }
  }

  // With unique names, dropping a name drops one entry.
  lemma {:induction false} DropUnique(es: seq<Entry>, u: Name)
    requires UniqueNames(es)
    ensures Find(es, u).None? ==> Drop(es, u) == es
    ensures Find(es, u).Some? ==>
              AdminCount(Drop(es, u)) == AdminCount(es) - if es[Find(es, u).value].role == Admin then 1 else 0
  {
    if es == [] {
    } else {
      var front, e := es[..|es| - 1], es[|es| - 1];
      DropUnique(front, u);
      assert es == front + [e];
      AppendEntry(Drop(front, u), e);
    }
  }

  // ... and with unique names it never does.
  lemma UniqueDeleteKeepsAdmin(es: seq<Entry>, u: Name)
    requires UniqueNames(es) && AdminCount(es) >= 1 && DeleteAccepted(es, u)
    ensures AdminCount(Drop(es, u)) >= 1
  {
    DropUnique(es, u);
  }

  class UserStore {
    var entries: seq<Entry>

    constructor (entries: seq<Entry>)
      ensures this.entries == entries
    {
      this.entries := entries;
    }

    method CreateUser(username: string, role: Role, password: string) returns (r: Result<(), Refusal>)
      modifies this
      ensures r.Ok? <==>
                && Strip(username, IsSpace) != "" && !role.OtherRole? && password != ""
                && old(Find(entries, Name(Strip(username, IsSpace)))).None?
      ensures r.Ok? ==>
                entries == old(entries) + [Entry(Name(Strip(username, IsSpace)), role, Some(HashOf(password)), None)]
      ensures r.Err? ==> entries == old(entries) && r.error == Invalid
      ensures old(Sound(entries)) ==> Sound(entries)
    {
      var name := Strip(username, IsSpace);
      if name == "" || role.OtherRole? || password == "" { return Err(Invalid); }
      if Find(entries, Name(name)).Some? { return Err(Invalid); }
      AppendEntry(entries, Entry(Name(name), role, Some(HashOf(password)), None));
      entries := entries + [Entry(Name(name), role, Some(HashOf(password)), None)];
      return Ok(());
    }

    method SetRole(username: Name, role: Role) returns (r: Result<(), Refusal>)
      modifies this
      ensures r == RoleAnswer(old(entries), username, role)
      ensures r.Ok? ==> var i := old(Find(entries, username)).value;
              entries == old(entries)[i := old(entries)[i].(role := role)]
      ensures r.Err? ==> entries == old(entries)
      // Even with duplicate names, a role change never takes the last admin.
      ensures old(AdminCount(entries)) >= 1 ==> AdminCount(entries) >= 1
      ensures old(Sound(entries)) ==> Sound(entries)
    {
      if role.OtherRole? { return Err(Invalid); }
      var i := Find(entries, username);
      if i.None? { return Err(NoSuchUser); }
      var target := entries[i.value];
      AdminAtIndex(entries, i.value);
      if target.role == Admin && role != Admin && AdminCount(entries) <= 1 { return Err(LastAdmin); }
      UpdateEntry(entries, i.value, target.(role := role));
      entries := entries[i.value := target.(role := role)];
      return Ok(());
    }

    method SetPassword(username: Name, password: string) returns (r: Result<(), Refusal>)
      modifies this
      ensures var i := old(Find(entries, username));
              && (r.Ok? <==> password != "" && i.Some?)
              && (r.Ok? ==>
                    var e := old(entries)[i.value].(password := None, passwordHash := Some(HashOf(password)));
                    entries == old(entries)[i.value := e])
              && (r.Err? ==> entries == old(entries) && r.error == if password == "" then Invalid else NoSuchUser)
      ensures AdminCount(entries) == old(AdminCount(entries))
      ensures old(Sound(entries)) ==> Sound(entries)
    {
      if password == "" { return Err(Invalid); }
      var i := Find(entries, username);
      if i.None? { return Err(NoSuchUser); }
      var target := entries[i.value].(password := None, passwordHash := Some(HashOf(password)));
      UpdateEntry(entries, i.value, target);
      entries := entries[i.value := target];
      return Ok(());
    }

    method DeleteUser(username: Name) returns (r: Result<(), Refusal>)
      modifies this
      ensures r == if DeleteAccepted(old(entries), username) then Ok(())
                   else Err(if old(Find(entries, username)).None? then NoSuchUser else LastAdmin)
      ensures r.Ok? ==> entries == Drop(old(entries), username)
      ensures r.Err? ==> entries == old(entries)
      ensures old(Sound(entries)) ==> Sound(entries)
    {
      var i := Find(entries, username);
      if i.None? { return Err(NoSuchUser); }
      if entries[i.value].role == Admin && AdminCount(entries) <= 1 { return Err(LastAdmin); }
      if UniqueNames(entries) { DropKeepsUnique(entries, username); }
      if UniqueNames(entries) && AdminCount(entries) >= 1 { UniqueDeleteKeepsAdmin(entries, username); }
      entries := Drop(entries, username);
      return Ok(());
    }

    // Any sequence of calls, accepted or refused, keeps names unique and at least one admin.
    method Administer(calls: seq<Call>)
      requires Sound(entries)
      modifies this
      ensures Sound(entries)
    {
      for i := 0 to |calls|
        invariant Sound(entries)
      {
        match calls[i] {
          case Create(u, role, p) => var _ := CreateUser(u, role, p);
          case ChangeRole(u, role) => var _ := SetRole(u, role);
          case ChangePassword(u, p) => var _ := SetPassword(u, p);
          case Delete(u) => var _ := DeleteUser(u);
        }
      }
    }
  }

  lemma {:induction false} FindNone(es: seq<Entry>, u: Name)
    ensures Find(es, u).None? <==> forall e | e in es :: e.username != u
  {
    if es == [] {
    } else {
      FindNone(es[..|es| - 1], u);
      assert es == es[..|es| - 1] + [es[|es| - 1]];
    }
  }

  // Deleting a name leaves an admin exactly when some admin has another name. The guard of delete only counts
  // admins, so with duplicate names it can accept a call that removes them all ...
  lemma {:induction false} DeleteKeepsAnAdminExactly(es: seq<Entry>, u: Name)
    ensures AdminCount(Drop(es, u)) >= 1 <==> exists e :: e in es && e.role == Admin && e.username != u
  {
    if es == [] {
    } else {
      var front, last := es[..|es| - 1], es[|es| - 1];
      DeleteKeepsAnAdminExactly(front, u);
      AppendEntry(Drop(front, u), last);
      assert es == front + [last];
      if last.role == Admin && last.username != u { assert last in es; }
      if e :| e in front && e.role == Admin && e.username != u { assert e in es; }
    }
  }

  lemma DuplicateAdminsCanAllGo(u: Name)
    ensures exists es :: AdminCount(es) >= 1 && DeleteAccepted(es, u) && AdminCount(Drop(es, u)) == 0
  {
    var e := Entry(u, Admin, None, None);
    var es := [e, e];
    assert es[..1] == [e] && [e][..0] == [];
    assert Drop([e], u) == Drop([], u) == [];
    assert Find([e], u) == Some(0) && AdminCount([e]) == 1;
    assert Drop(es, u) == Drop([e], u);
    assert AdminCount(es) == 2 && DeleteAccepted(es, u) && Drop(es, u) == [];
  }

  // ---- What the guards mean ----

  lemma {:induction false} AdminCountIsNumber(es: seq<Entry>)
    ensures AdminCount(es) == |set i | 0 <= i < |es| && es[i].role == Admin|
  {
    if es == [] {
    } else {
      var front, n := es[..|es| - 1], |es| - 1;
      AdminCountIsNumber(front);
      var before := set i | 0 <= i < |front| && front[i].role == Admin;
      var all := set i | 0 <= i < |es| && es[i].role == Admin;
      if es[n].role == Admin { assert all == before + {n}; } else { assert all == before; }
    }
  }

  lemma {:induction false} UniqueIsExact(es: seq<Entry>)
    ensures UniqueNames(es) <==> forall i, j | 0 <= i < j < |es| :: es[i].username != es[j].username
  {
    if es == [] {
    } else {
      var front, n := es[..|es| - 1], |es| - 1;
      UniqueIsExact(front);
      FindNone(front, es[n].username);
      assert forall i | 0 <= i < n :: front[i] == es[i] && front[i] in front;
    }
  }

  // What every sequence of calls keeps: names are unique, and some entry is an admin's.
  lemma SoundIsExact(es: seq<Entry>)
    ensures Sound(es) <==>
              && (forall i, j | 0 <= i < j < |es| :: es[i].username != es[j].username)
              && exists e :: e in es && e.role == Admin
  {
    UniqueIsExact(es);
    AdminCountIsNumber(es);
    var admins := set i | 0 <= i < |es| && es[i].role == Admin;
    if admins != {} {
      var i :| i in admins;
      assert es[i] in es && |admins| >= 1;
    } else {
      assert |admins| == 0;
      forall e | e in es ensures e.role != Admin {
        var i :| 0 <= i < |es| && es[i] == e;
        assert i !in admins;
      }
    }
  }

  // Find finds the first entry of a name.
  lemma {:induction false} FindIsFirst(es: seq<Entry>, u: Name, i: nat)
    ensures Find(es, u) == Some(i) <==>
              i < |es| && es[i].username == u && forall j | 0 <= j < i :: es[j].username != u
  {
    if es == [] {
    } else {
      FindIsFirst(es[..|es| - 1], u, i);
      FindNone(es[..|es| - 1], u);
      assert forall j | 0 <= j < |es| - 1 :: es[..|es| - 1][j] == es[j] && es[j] in es[..|es| - 1];
    }
  }

  // A role change is refused for the last admin exactly when it would leave none.
  lemma RoleRefusedExactly(es: seq<Entry>, u: Name, role: Role)
    requires AdminCount(es) >= 1 && !role.OtherRole? && Find(es, u).Some?
    ensures var i := Find(es, u).value;
            RoleAnswer(es, u, role) == Err(LastAdmin) <==> AdminCount(es[i := es[i].(role := role)]) == 0
  {
    var i := Find(es, u).value;
    UpdateEntry(es, i, es[i].(role := role));
    AdminAtIndex(es, i);
  }

  // With unique names, a delete is refused for the last admin exactly when it would leave none.
  lemma DeleteRefusedExactly(es: seq<Entry>, u: Name)
    requires UniqueNames(es) && AdminCount(es) >= 1 && Find(es, u).Some?
    ensures DeleteAccepted(es, u) <==> AdminCount(Drop(es, u)) >= 1
  {
    DropUnique(es, u);
  }

  // Drop keeps exactly the entries of other names, in order.
  lemma {:induction false} DropIsExact(es: seq<Entry>, more: seq<Entry>, u: Name)
    ensures Drop(es + more, u) == Drop(es, u) + Drop(more, u)
    ensures forall e :: e in Drop(more, u) <==> e in more && e.username != u
  {
    if more == [] {
      assert es + more == es;
    } else {
      var front, e := more[..|more| - 1], more[|more| - 1];
      assert (es + more)[..|es + more| - 1] == es + front;
      DropIsExact(es, front, u);
      assert forall x :: x in more <==> x in front || x == e;
    }
  }
}
