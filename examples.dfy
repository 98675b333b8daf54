/** Worked examples: a title filtered by substring and an author matched after trimming.
    The values are parameters fixed by the requires clauses. */
module Examples {
  import opened Wrappers
  import opened Records
  import opened Text
  import opened Filters

  /** A title filter for "Draft" rejects "Fix bug" and accepts "Draft: WIP". */
  lemma TitleIncludesExample(fix: string, wip: string, draft: string, f: Filter)
    requires fix == "Fix bug" && wip == "Draft: WIP" && draft == "Draft"
    requires f == Filter("1", "Title", "title", Some(draft), None, None)
    ensures Evaluate(f, Obj(map["title" := Str(fix)])) == Ok(false)
    ensures Evaluate(f, Obj(map["title" := Str(wip)])) == Ok(true)
  {
    TitleRecord(fix, f, Obj(map["title" := Str(fix)]));
    TitleRecord(wip, f, Obj(map["title" := Str(wip)]));
    FirstCharMissing(fix, draft);
    assert OccursAt(wip, draft, 0);
  }

  /** An includes filter on "title" tests the title for its text. */
  lemma TitleRecord(title: string, f: Filter, mr: Value)
    requires f.field == "title" && IsSet(f.includes)
    requires mr == Obj(map["title" := Str(title)])
    ensures Evaluate(f, mr) == Ok(Includes(title, f.includes.value))
  {
    SingleSegment(mr, "title");
    assert FieldOf(f, mr) == Str(title);
  }

  /** An author filter matching " alice " accepts the author "alice" and rejects "bob":
      both sides are trimmed. */
  lemma AuthorMatchesExample(path: string, alice: string, bob: string, text: string, f: Filter)
    requires path == "author.username" && alice == "alice" && bob == "bob" && text == " alice "
    requires f == Filter("2", "Author", path, None, Some(text), None)
    ensures Evaluate(f, Obj(map["author" := Obj(map["username" := Str(alice)])])) == Ok(true)
    ensures Evaluate(f, Obj(map["author" := Obj(map["username" := Str(bob)])])) == Ok(false)
  {
    AuthorTrims();
    AuthorRecord(path, alice, f, Obj(map["author" := Obj(map["username" := Str(alice)])]));
    AuthorRecord(path, bob, f, Obj(map["author" := Obj(map["username" := Str(bob)])]));
  }

  /** A matches filter on "author.username" compares the trimmed username with its text. */
  lemma AuthorRecord(path: string, name: string, f: Filter, mr: Value)
    requires path == "author.username" && f.field == path
    requires !IsSet(f.includes) && IsSet(f.matches)
    requires mr == Obj(map["author" := Obj(map["username" := Str(name)])])
    ensures Evaluate(f, mr) == Ok(Trim(name) == Trim(f.matches.value))
  {
    UsernameOf(path, mr, name);
    assert FieldOf(f, mr) == Str(name);
  }

  lemma AuthorTrims()
    ensures Trim(" alice ") == "alice" && Trim("alice") == "alice" && Trim("bob") == "bob"
  {
    assert PaddedAt(" alice ", "alice", 1);
    TrimUnique(" alice ", "alice", 1);
    assert PaddedAt("alice", "alice", 0);
    TrimUnique("alice", "alice", 0);
    assert PaddedAt("bob", "bob", 0);
    TrimUnique("bob", "bob", 0);
  }

  /** The path "author.username" reads the author's username. */
  lemma UsernameOf(path: string, mr: Value, name: string)
    requires path == "author.username"
    requires mr == Obj(map["author" := Obj(map["username" := Str(name)])])
    ensures Resolve(mr, Split(path)) == Str(name)
  {
    var keys := ["author", "username"];
    assert Join(keys) == path;
    SplitJoin(keys);
    var inner := Lookup(mr.fields, "author");
    assert inner == Obj(map["username" := Str(name)]);
    assert keys[1..] == ["username"] && keys[1..][1..] == [];
    assert Resolve(mr, keys) == Resolve(inner, ["username"]);
  }
}
