/** When the readers of vnc.go return what the console's attributes mean. */
module VncReads {
  import opened GoStrings
  import opened AttrList
  import opened AttrLaws
  import opened VncXml
  import opened VncMarker
  import opened VncDoc
  import opened VncLaws
  import opened VncTheorems

  /** Port and automatic choice as the attributes of those names say. */
  function MeantPort(attrs: seq<Attr>): Port {
    Port(PortNumber(Lookup(attrs, "port")), Lookup(attrs, "autoport") != "no")
  }

  /** With nothing but the attribute itself to stop the search, it reads right. */
  lemma ReadsRight(attrs: seq<Attr>, key: string)
    requires WellFormed(attrs) && Heard(attrs, key)
    requires forall i :: 0 <= i < |attrs| && EndsWith(attrs[i].name, key) ==> attrs[i].name == key
    ensures ReadFirst(attrs, key) == Lookup(attrs, key)
  {
    hide EndsWith, Lookup, ReadFirst;
    forall i ensures !Shadows(attrs, i, key) {}
    ReadIsLookupIff(attrs, key);
  }

  /** A name of a clean tag ends in a console name only as that name, but for autoport. */
  lemma CleanNames(attrs: seq<Attr>, i: nat)
    requires Clean(attrs) && i < |attrs|
    ensures EndsWith(attrs[i].name, "passwd") ==> attrs[i].name == "passwd"
    ensures EndsWith(attrs[i].name, "listen") ==> attrs[i].name == "listen"
    ensures EndsWith(attrs[i].name, "autoport") ==> attrs[i].name == "autoport"
    ensures EndsWith(attrs[i].name, "port") <==> attrs[i].name == "port" || attrs[i].name == "autoport"
  {
    OwnNames();
    WholeSuffix("port");
    assert CleanAttr(attrs[i]);
    assert "auto" + "port" == "autoport";
    hide Harmless, Quiet, EndsWith, WellFormed;
    if EndsWith(attrs[i].name, "auto" + "port") { ShorterSuffix(attrs[i].name, "auto", "port"); }
  }

  /** The reader finds a password exactly when the console has one; with a quiet password, the address it
      finds without a child and the automatic choice are the console's too. */
  lemma CleanReads(doc: Doc)
    requires doc.Valid() && Clean(doc.attrs)
    ensures GraphicsInfo(doc.Text()).hasPassword <==> Lookup(doc.attrs, "passwd") != ""
    ensures Quiet(Lookup(doc.attrs, "passwd")) ==>
              && (doc.ChildListen() == "" ==> GraphicsInfo(doc.Text()).listen == Lookup(doc.attrs, "listen"))
              && GraphicsPort(doc.Text()).auto == MeantPort(doc.attrs).auto
  {
    hide EndsWith, Clean, ReadFirst, Lookup, Quiet, GraphicsInfo, GraphicsPort, Atoi;
    forall i | 0 <= i < |doc.attrs| ensures
        && (EndsWith(doc.attrs[i].name, "passwd") ==> doc.attrs[i].name == "passwd")
        && (EndsWith(doc.attrs[i].name, "listen") ==> doc.attrs[i].name == "listen")
        && (EndsWith(doc.attrs[i].name, "autoport") ==> doc.attrs[i].name == "autoport")
    {
      CleanNames(doc.attrs, i);
    }
    ReaderRefines(doc);
    CleanFormed(doc.attrs);
    ReadsRight(doc.attrs, "passwd");
    if Quiet(Lookup(doc.attrs, "passwd")) {
      CleanIsHeard(doc.attrs);
      ReadsRight(doc.attrs, "listen");
      ReadsRight(doc.attrs, "autoport");
    }
  }

  lemma CleanFormed(attrs: seq<Attr>)
    requires Clean(attrs)
    ensures WellFormed(attrs) && Heard(attrs, "passwd")
  {
    CleanTraps(attrs);
  }

  /** An autoport attribute with no port in front of it, whose own number is not the port's. */
  predicate HidesPort(attrs: seq<Attr>, i: int) {
    && 0 <= i < |attrs| && attrs[i].name == "autoport" && !Named(attrs[..i], "port")
    && PortNumber(attrs[i].value) != PortNumber(Lookup(attrs, "port"))
  }

  lemma {:induction false} PortRead(attrs: seq<Attr>)
    requires WellFormed(attrs) && Heard(attrs, "port")
    requires forall i :: 0 <= i < |attrs| ==>
        (EndsWith(attrs[i].name, "port") <==> attrs[i].name == "port" || attrs[i].name == "autoport")
    ensures PortNumber(ReadFirst(attrs, "port")) == PortNumber(Lookup(attrs, "port"))
            <==> forall i :: !HidesPort(attrs, i)
  {
    hide EndsWith, Atoi;
    if attrs == [] {
    } else if attrs[0].name == "port" {
      forall i | 0 < i < |attrs| ensures Named(attrs[..i], "port") { assert attrs[..i][0].name == "port"; }
    } else if attrs[0].name == "autoport" {
      assert attrs[..0] == [];
      assert HidesPort(attrs, 0) <==> PortNumber(ReadFirst(attrs, "port")) != PortNumber(Lookup(attrs, "port"));
    } else {
      var rest := attrs[1..];
      PortRead(rest);
      forall i | 0 <= i < |rest| ensures HidesPort(rest, i) <==> HidesPort(attrs, i + 1) {
        assert attrs[..i + 1] == [attrs[0]] + rest[..i];
        NamedFirst(attrs[..i + 1], "port");
      }
      if i :| HidesPort(attrs, i) { assert i != 0 && HidesPort(rest, i - 1); }
    }
  }

  /** The reader returns the port that the attributes mean, exactly when no autoport attribute stands in
      front of it with another number: the key `port=` also ends the name `autoport`. */
  lemma PortMeantIff(doc: Doc)
    requires doc.Valid() && Clean(doc.attrs) && Quiet(Lookup(doc.attrs, "passwd"))
    ensures GraphicsPort(doc.Text()) == MeantPort(doc.attrs) <==> forall i :: !HidesPort(doc.attrs, i)
  {
    hide Clean, ReadFirst, Lookup, Quiet, GraphicsInfo, GraphicsPort, EndsWith, Atoi;
    forall i | 0 <= i < |doc.attrs| ensures
        EndsWith(doc.attrs[i].name, "port") <==> doc.attrs[i].name == "port" || doc.attrs[i].name == "autoport"
    {
      CleanNames(doc.attrs, i);
    }
    CleanReads(doc);
    CleanFormed(doc.attrs);
    ReaderRefines(doc);
    PasswordRight(doc.attrs);
    CleanIsHeard(doc.attrs);
    PortRead(doc.attrs);
  }

  lemma PasswordRight(attrs: seq<Attr>)
    requires Clean(attrs)
    ensures ReadFirst(attrs, "passwd") == Lookup(attrs, "passwd")
  {
    hide Clean, EndsWith, ReadFirst, Lookup;
    CleanFormed(attrs);
    forall i | 0 <= i < |attrs| ensures EndsWith(attrs[i].name, "passwd") ==> attrs[i].name == "passwd" {
      CleanNames(attrs, i);
    }
    ReadsRight(attrs, "passwd");
  }

  // ---------- an instance ----------

  function AutoFirst(): Doc {
    Doc("", [Attr("type", "vnc"), Attr("autoport", "no"), Attr("port", "5901")], "/>", "")
  }

  lemma PlainValue(a: Attr)
    requires a.name == "type" || a.name == "autoport" || a.name == "port"
    requires a.value == "vnc" || a.value == "no" || a.value == "5901"
    ensures NameOk(a.name) && ValueOk(a.value)
  {
    assert "type" == ['t', 'y', 'p', 'e'] && "port" == ['p', 'o', 'r', 't'];
    assert "autoport" == ['a', 'u', 't', 'o', 'p', 'o', 'r', 't'];
    assert "vnc" == ['v', 'n', 'c'] && "no" == ['n', 'o'] && "5901" == ['5', '9', '0', '1'];
  }

  lemma AutoFirstShaped()
    ensures var d := AutoFirst(); Shaped(d.attrs) && TailOk(d.tail) && Marked(d.attrs)
  {
    assert "/>" == ['/', '>'];
    WholeSuffix("type");
    var attrs := AutoFirst().attrs;
    hide NameOk, ValueOk, EndsWith;
    forall i | 0 <= i < 3 ensures NameOk(attrs[i].name) && ValueOk(attrs[i].value) { PlainValue(attrs[i]); }
    assert IsMarker(attrs[0]);
  }

  lemma Printed5901()
    ensures Itoa(5901) == "5901"
  {
    assert Itoa(5) == "5" && Itoa(59) == Itoa(5) + ['9'];
    assert Itoa(590) == Itoa(59) + ['0'] && Itoa(5901) == Itoa(590) + ['1'];
  }

  lemma Number5901()
    ensures PortNumber("5901") == 5901 && PortNumber("no") == 0
  {
    Printed5901();
    assert !IsDigit("no"[0]);
    hide Itoa;
    AtoiItoa(5901);
  }

  lemma AutoFirstReads(x: Attr, y: Attr, z: Attr)
    requires Silent(x, "port") && Silent(x, "autoport") && y.name == "autoport" && z.name == "port" && x.name != "port"
    requires x.name != "autoport"
    ensures ReadFirst([x, y, z], "port") == ReadFirst([x, y, z], "autoport") == Lookup([x, y, z], "autoport") == y.value
    ensures Lookup([x, y, z], "port") == z.value
  {
    OwnNames();
    WholeSuffix("autoport");
    assert |"autoport"| == 8 && |"port"| == 4;
    hide EndsWith;
    assert [x, y, z][1..] == [y, z] && [y, z][1..] == [z];
    assert y.name != "port" && Lookup([z], "port") == z.value == Lookup([y, z], "port");
  }

  lemma TypeSilent()
    ensures Silent(Attr("type", "vnc"), "port") && Silent(Attr("type", "vnc"), "autoport")
  {
    assert "vnc" == ['v', 'n', 'c'] && "type" == ['t', 'y', 'p', 'e'];
    NotSuffix("type", "port"); NotSuffix("type", "autoport");
    NotSuffix("vnc", "port" + "="); NotSuffix("vnc", "autoport" + "=");
  }

  /** A valid console whose port the reader does not see. */
  lemma PortIsHidden()
    ensures AutoFirst().Valid() && MeantPort(AutoFirst().attrs) == Port(5901, false)
    ensures GraphicsPort(AutoFirst().Text()) == Port(0, false)
  {
    hide EndsWith, Clean, Quiet, PortNumber, GraphicsPort, Doc.Valid, IsMarker, ReadFirst, Lookup, Silent, Doc.Text;
    AutoFirstShaped();
    NothingBefore();
    FirstIsValid(AutoFirst());
    ReaderRefines(AutoFirst());
    Number5901();
    TypeSilent();
    AutoFirstReads(Attr("type", "vnc"), Attr("autoport", "no"), Attr("port", "5901"));
  }

  lemma NothingBefore()
    ensures Index("", GRAPHICS) == -1
  {
  }
}
