/** How the controls of a converted message are found again. */
module Controls {
  import opened Wrappers
  import opened LegacyText
  import opened Text
  import opened Convert

  // One control.

  lemma SkipNone(s: string, c: char)
    requires s == [] || s[0] != c
    ensures SkipLeading(s, c) == s
  {
  }

  lemma ColonControl(title: string, x: string)
    requires Free(title, " :")
    ensures ReadControl(title + ": " + x) == Control(title, SkipLeading(x, ' '), title + ": " + x)
  {
    var payload := title + ": " + x;
    assert payload == title + [':'] + (" " + x);
    FindAfter(title, ':', " " + x, " :");
    assert payload[|title|..] == [':'] + (" " + x);
    assert ([':'] + (" " + x))[1..] == " " + x && (" " + x)[1..] == x;
    SkipNone(" " + x, ':');
  }

  lemma SpaceControl(title: string, x: string)
    requires Free(title, " :")
    ensures ReadControl(title + " " + x).name == title
  {
    assert title + " " + x == title + [' '] + x;
    FindAfter(title, ' ', x, " :");
  }

  // Groups of controls.

  lemma {:induction false} RunConcat(a: Steps, b: Steps)
    requires RunSteps(a + b).Ok?
    ensures RunSteps(a).Ok? && RunSteps(b).Ok? && RunSteps(a + b).value == RunSteps(a).value + RunSteps(b).value
    decreases |a|
  {
    hide ReadControl, Carriable;
    if a == [] {
      assert a + b == b;
      assert [] + RunSteps(b).value == RunSteps(b).value;
    } else {
      assert (a + b)[1..] == a[1..] + b;
      RunConcat(a[1..], b);
      assert [ReadControl(a[0].value)] + (RunSteps(a[1..]).value + RunSteps(b).value)
        == RunSteps(a).value + RunSteps(b).value;
    }
  }

  /** The controls of each group. */
  lemma {:induction false} RunJoined(groups: seq<Steps>) returns (ran: seq<seq<Control>>)
    requires RunSteps(Joined(groups)).Ok?
    ensures |ran| == |groups| && RunSteps(Joined(groups)).value == Joined(ran)
    ensures forall j :: 0 <= j < |groups| ==> RunSteps(groups[j]) == Ok(ran[j])
    decreases |groups|
  {
    hide RunSteps;
    if groups == [] {
      ran := [];
      NothingToRun();
    } else {
      RunConcat(groups[0], Joined(groups[1..]));
      var later := RunJoined(groups[1..]);
      ran := [RunSteps(groups[0]).value] + later;
      assert ran[1..] == later;
      forall j | 0 <= j < |groups| ensures RunSteps(groups[j]) == Ok(ran[j]) {
        if j > 0 { assert groups[j] == groups[1..][j - 1] && ran[j] == later[j - 1]; }
      }
    }
  }

  lemma NothingToRun()
    ensures RunSteps([]) == Ok([])
  {
  }

  /** No control of this name. */
  ghost predicate Silent(controls: seq<Control>, name: string) {
    forall i :: 0 <= i < |controls| ==> !SameName(controls[i].name, name)
  }

  lemma {:induction false} NamedConcat(a: seq<Control>, b: seq<Control>, name: string)
    ensures Named(a + b, name) == if Named(a, name).Some? then Named(a, name) else Named(b, name)
    ensures Silent(a, name) ==> Named(a, name).None?
    decreases |a|
  {
    hide SameName;
    if a == [] {
      assert a + b == b;
    } else {
      assert (a + b)[1..] == a[1..] + b;
      NamedConcat(a[1..], b, name);
    }
  }

  lemma {:induction false} GatherConcat(a: seq<Control>, b: seq<Control>)
    ensures Gather(a + b) ==
      if Gather(a).Err? then Gather(a) else if Gather(b).Err? then Gather(b) else Ok(Gather(a).value + Gather(b).value)
    decreases |a|
  {
    hide SameName, ChunkOf;
    if a == [] {
      assert a + b == b;
      if Gather(b).Ok? { assert "" + Gather(b).value == Gather(b).value; }
    } else {
      assert (a + b)[1..] == a[1..] + b;
      GatherConcat(a[1..], b);
      if SameName(a[0].name, "TITHSIGN") && Gather(a).Ok? && Gather(b).Ok? {
        var chunk := ChunkOf(a[0].value).value;
        assert chunk + (Gather(a[1..]).value + Gather(b).value) == Gather(a).value + Gather(b).value;
      }
    }
  }

  lemma {:induction false} GatherSilent(controls: seq<Control>)
    requires Silent(controls, "TITHSIGN")
    ensures Gather(controls) == Ok("")
  {
    hide SameName, ChunkOf;
    if controls != [] { GatherSilent(controls[1..]); }
  }

  /** The first group that has the name decides. */
  lemma {:induction false} NamedJoined(groups: seq<seq<Control>>, name: string, k: nat)
    requires k <= |groups| && forall j :: 0 <= j < k ==> Silent(groups[j], name)
    requires k < |groups| ==> Named(groups[k], name).Some?
    ensures Named(Joined(groups), name) == if k < |groups| then Named(groups[k], name) else None
    decreases k
  {
    hide Named, SameName;
    if groups == [] {
      NamedEmpty(name);
    } else {
      NamedConcat(groups[0], Joined(groups[1..]), name);
      if k > 0 {
        forall j | 0 <= j < k - 1 ensures Silent(groups[1..][j], name) { assert groups[1..][j] == groups[j + 1]; }
        NamedJoined(groups[1..], name, k - 1);
      }
    }
  }

  lemma NamedEmpty(name: string)
    ensures Named([], name).None?
  {
  }

  /** Only one group has chunks. */
  lemma {:induction false} GatherJoined(groups: seq<seq<Control>>, k: nat)
    requires forall j :: 0 <= j < |groups| && j != k ==> Silent(groups[j], "TITHSIGN")
    requires k < |groups| ==> Gather(groups[k]).Ok?
    ensures Gather(Joined(groups)) == if k < |groups| then Gather(groups[k]) else Ok("")
    decreases |groups|
  {
    hide SameName, ChunkOf, Silent, Gather;
    if groups == [] {
      GatherEmpty();
    } else {
      forall j | 0 <= j < |groups[1..]| && j != (if k == 0 then |groups| else k - 1)
        ensures Silent(groups[1..][j], "TITHSIGN")
      {
        assert groups[1..][j] == groups[j + 1];
      }
      GatherJoined(groups[1..], if k == 0 then |groups| else k - 1);
      if k != 0 { GatherSilent(groups[0]); }
      GatherConcat(groups[0], Joined(groups[1..]));
      if k == 0 { assert Gather(groups[0]).value + "" == Gather(groups[0]).value; }
      else if k < |groups| { assert "" + Gather(groups[k]).value == Gather(groups[k]).value; }
      else { assert "" + "" == ""; }
    }
  }

  lemma GatherEmpty()
    ensures Gather([]) == Ok("")
  {
  }

  lemma {:induction false} JoinedSnoc<T>(groups: seq<seq<T>>, last: seq<T>)
    ensures Joined(groups + [last]) == Joined(groups) + last
  {
    var all := groups + [last];
    if groups == [] {
      assert all[1..] == [];
      assert last + [] == [] + last;
    } else {
      assert all[1..] == groups[1..] + [last];
      JoinedSnoc(groups[1..], last);
      assert groups[0] + (Joined(groups[1..]) + last) == (groups[0] + Joined(groups[1..])) + last;
    }
  }

  // Names.

  /** The titles the converter writes are told apart by the names the inverse looks for. */
  lemma NamesDiffer()
    ensures SameName("MSGID", "MSGID") && SameName("REPLY", "REPLY") && SameName("MSGTO", "MSGTO")
      && SameName("TZUTC", "TZUTC")
    ensures !SameName("MSGID", "REPLY") && !SameName("MSGID", "MSGTO") && !SameName("MSGID", "TZUTC")
      && !SameName("MSGID", "TITHSIGN")
    ensures !SameName("REPLY", "MSGTO") && !SameName("REPLY", "TZUTC") && !SameName("REPLY", "MSGID")
      && !SameName("REPLY", "TITHSIGN")
    ensures !SameName("MSGTO", "TZUTC") && !SameName("MSGTO", "MSGID") && !SameName("MSGTO", "REPLY")
      && !SameName("MSGTO", "TITHSIGN")
    ensures !SameName("TZUTC", "MSGTO") && !SameName("TZUTC", "MSGID") && !SameName("TZUTC", "REPLY")
      && !SameName("TZUTC", "TITHSIGN")
    ensures !SameName("ASSOC", "MSGTO") && !SameName("ASSOC", "MSGID") && !SameName("ASSOC", "REPLY")
      && !SameName("ASSOC", "TZUTC") && !SameName("ASSOC", "TITHSIGN")
  {
    assert "MSGID"[0] == 'M' && "REPLY"[0] == 'R' && "TZUTC"[0] == 'T' && "ASSOC"[0] == 'A' && "MSGTO"[0] == 'M';
    assert "MSGID"[3] == 'I' && "MSGTO"[3] == 'T';
  }

  /** Four-letter and signing titles are none of the names looked for. */
  lemma ShortNames(title: string, name: string)
    requires |title| == 4 || |title| == 7 || |title| == 8
    requires |name| == 5 || (|name| == 8 && |title| != 8)
    ensures !SameName(title, name)
  {
  }
}
