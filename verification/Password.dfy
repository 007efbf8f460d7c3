/** internal/vnc/vnc.go, and the accepted passwords that the console edits mistake for an attribute. */
module Password {
  import opened GoStrings
  import opened AttrList
  import opened AttrLaws
  import opened VncXml
  import opened VncMarker
  import opened VncDoc
  import opened VncLaws

  /** ValidPassword: 1 to 8 printable ASCII characters, none of them a quote or `<>&`. */
  predicate ValidPassword(pw: string) {
    && 1 <= |pw| <= 8
    && forall i :: 0 <= i < |pw| ==> ' ' <= pw[i] <= '~' && pw[i] !in "'\"<>&"
  }

  lemma ValidIsPlain(pw: string)
    requires ValidPassword(pw)
    ensures ValueOk(pw) && pw != ""
  {
    forall i | 0 <= i < |pw| ensures Plain(pw[i]) {
      var bad := "'\"<>&";
      assert bad[0] == '\'' && bad[1] == '"' && bad[2] == '<' && bad[3] == '>';
    }
  }

  /** What the listen edit makes of a tag whose first attribute is the password just set. */
  function After(pw: string, rest: seq<Attr>): seq<Attr> {
    Stripped([Attr("passwd", pw)] + rest)
  }

  /** A password that ends like an attribute being dropped. */
  predicate LooksLikeAttr(pw: string) {
    EndsWith(pw, " listen=") || EndsWith(pw, " port=")
  }

  /** Among accepted passwords the clean ones are exactly those. */
  lemma ValidIsCleanIff(pw: string)
    requires ValidPassword(pw)
    ensures CleanPassword(pw) <==> !LooksLikeAttr(pw)
  {
    ValidIsPlain(pw);
    assert |" autoport="| == 10;
  }

  lemma DropBehindPassword(v: string, t: seq<Attr>, name: string)
    requires name != "passwd" && !EndsWith(v, " " + name + "=") && NoTrap(t, name)
    ensures DropFirst([Attr("passwd", v)] + t, name) == [Attr("passwd", v)] + Remove(t, name)
  {
    DropIsRemove(t, name);
    assert ([Attr("passwd", v)] + t)[1..] == t;
  }

  lemma DropOnPassword(v: string, t: seq<Attr>, name: string)
    requires name != "passwd" && EndsWith(v, " " + name + "=") && t != []
    ensures DropFirst([Attr("passwd", v)] + t, name)
            == [Attr("passwd", v[..|v| - |name| - 2] + t[0].value)] + t[1..]
  {
    var a := [Attr("passwd", v)] + t;
    assert a[1] == t[0] && a[2..] == t[1..];
  }

  lemma TailClean(t: seq<Attr>)
    requires Clean(t) && t != []
    ensures Clean(t[1..])
  {
  }

  /** A plain password stays in front through all three drops. */
  lemma AfterPlain(pw: string, rest: seq<Attr>)
    requires Clean(rest) && |pw| <= 8 && !LooksLikeAttr(pw)
    ensures var s := After(pw, rest); s != [] && s[0] == Attr("passwd", pw)
  {
    hide CleanAttr;
    var r1 := Remove(rest, "listen");
    var r2 := Remove(r1, "port");
    assert " " + "listen" + "=" == " listen=" && " " + "port" + "=" == " port=" && |" " + "autoport" + "="| == 10;
    CleanTraps(rest); RemoveClean(rest, "listen");
    DropBehindPassword(pw, rest, "listen");
    CleanTraps(r1); RemoveClean(r1, "port");
    DropBehindPassword(pw, r1, "port");
    CleanTraps(r2);
    DropBehindPassword(pw, r2, "autoport");
  }

  lemma ListenTrap(v: string)
    ensures var pw := " listen="; EndsWith(pw, " " + "listen" + "=") && pw[..|pw| - |"listen"| - 2] + v == v
  {
    assert " listen=" == " " + "listen" + "=";
    WholeSuffix(" listen=");
  }

  /** Behind a password with a harmless value, the port and autoport drops delete. */
  lemma DropsBehind(v: string, t: seq<Attr>)
    requires Clean(t) && !EndsWith(v, " " + "port" + "=") && !EndsWith(v, " " + "autoport" + "=")
    ensures DropFirst(DropFirst([Attr("passwd", v)] + t, "port"), "autoport")
            == [Attr("passwd", v)] + Remove(Remove(t, "port"), "autoport")
  {
    hide EndsWith, CleanAttr;
    CleanTraps(t);
    RemoveClean(t, "port");
    CleanTraps(Remove(t, "port"));
    DropBehindPassword(v, t, "port");
    DropBehindPassword(v, Remove(t, "port"), "autoport");
  }

  /** The password ` listen=` becomes the value of the attribute behind it. */
  lemma AfterListenTrap(rest: seq<Attr>)
    requires Clean(rest) && rest != [] && rest[0].name != "passwd"
    ensures After(" listen=", rest)
            == [Attr("passwd", rest[0].value)] + Remove(Remove(rest[1..], "port"), "autoport")
  {
    hide CleanAttr, EndsWith, DropFirst, Remove;
    var pw, v := " listen=", rest[0].value;
    ListenTrap(v);
    DropOnPassword(pw, rest, "listen");
    TailClean(rest);
    FirstTraps(rest);
    DropsBehind(v, rest[1..]);
  }

  lemma FirstTraps(rest: seq<Attr>)
    requires Clean(rest) && rest != [] && rest[0].name != "passwd"
    ensures !EndsWith(rest[0].value, "port=") && !EndsWith(rest[0].value, "listen=")
    ensures !EndsWith(rest[0].value, " " + "port" + "=") && !EndsWith(rest[0].value, " " + "autoport" + "=")
  {
    var v := rest[0].value;
    assert CleanAttr(rest[0]);
    assert " " + "port" + "=" == " " + "port=" && " " + "autoport" + "=" == " auto" + "port=";
    if EndsWith(v, " " + "port=") { ShorterSuffix(v, " ", "port="); }
    if EndsWith(v, " auto" + "port=") { ShorterSuffix(v, " auto", "port="); }
  }

  lemma SuffixChar(v: string, suffix: string, k: nat)
    requires EndsWith(v, suffix) && k < |suffix|
    ensures |suffix| <= |v| && v[|v| - |suffix| + k] == suffix[k]
  {
    assert v[|v| - |suffix|..][k] == suffix[k];
  }

  lemma SuffixBehind(x: string, v: string, suffix: string)
    requires |suffix| <= |v|
    ensures EndsWith(x + v, suffix) <==> EndsWith(v, suffix)
  {
    assert (x + v)[|x + v| - |suffix|..] == v[|v| - |suffix|..];
  }

  lemma PortTrap(pw: string, v: string)
    requires |pw| <= 8 && EndsWith(pw, " port=") && !EndsWith(v, "port=")
    ensures |pw| >= 6 && EndsWith(pw, " " + "port" + "=") && !EndsWith(pw, " " + "listen" + "=")
    ensures !EndsWith(pw[..|pw| - 6] + v, " " + "autoport" + "=")
  {
    assert " " + "port" + "=" == " port=" && " " + "listen" + "=" == " listen=";
    assert " " + "autoport" + "=" == " auto" + "port=";
    SuffixChar(pw, " port=", 4);
    if EndsWith(pw, " listen=") { SuffixChar(pw, " listen=", 6); }
    var x := pw[..|pw| - 6];
    if EndsWith(x + v, " auto" + "port=") {
      ShorterSuffix(x + v, " auto", "port=");
      SuffixBehind(x, v, "port=");
    }
  }

  /** A password ending in ` port=` loses that ending to the value of the attribute behind it. */
  lemma AfterPortTrap(pw: string, rest: seq<Attr>)
    requires Clean(rest) && |pw| <= 8 && EndsWith(pw, " port=") && Remove(rest, "listen") != []
        && !Named(rest, "passwd")
    ensures var s, v := After(pw, rest), Remove(rest, "listen")[0].value;
      && s == [Attr("passwd", pw[..|pw| - 6] + v)] + Remove(Remove(rest, "listen")[1..], "autoport")
      && !EndsWith(v, "port=")
  {
    hide CleanAttr, EndsWith, DropFirst, Remove;
    var r1 := Remove(rest, "listen");
    CleanTraps(rest);
    RemoveClean(rest, "listen");
    assert !Named(r1, "passwd") && r1[0].name != "passwd";
    FirstTraps(r1);
    var v, t := r1[0].value, r1[1..];
    PortTrap(pw, v);
    var w := pw[..|pw| - 6] + v;
    DropBehindPassword(pw, rest, "listen");
    DropOnPassword(pw, r1, "port");
    TailClean(r1);
    CleanTraps(t);
    DropBehindPassword(w, t, "autoport");
  }

  /** Exactly the passwords that end like an attribute being dropped are corrupted by a listen edit. */
  lemma PasswordSurvivesIff(attrs: seq<Attr>, tail: string, pw: string, listen: string, port: Int)
    requires Clean(attrs) && Marked(attrs) && TailOk(tail) && ValidPassword(pw) && AddressOk(listen)
    ensures var t := PasswordTag(Tag(GRAPHICS, attrs, tail), pw);
      At(t, 0, GRAPHICS) && (AttrText(ListenTag(t, listen, port), "passwd") == pw <==> !LooksLikeAttr(pw))
  {
    hide ListenTag, PasswordTag, EndsWith, CleanAttr, Itoa, Stripped, Remove, ReadFirst, Silent;
    ValidIsPlain(pw);
    PasswordTagRefines(attrs, tail, pw);
    PasswordIsRemove(attrs);
    var rest := Remove(attrs, "passwd");
    var x := [Attr("passwd", pw)] + rest;
    Names();
    ListenTagRefines(x, tail, listen, port);
    ListenListClean(listen, port);
    GraphicsHead();
    StrippedShaped(x);
    var a := ListenList(listen, port) + After(pw, rest);
    ReadRefines(GRAPHICS, a, tail, "passwd");
    ReadSkips(ListenList(listen, port), After(pw, rest), "passwd");
    FirstPassword(pw, rest);
  }

  lemma StrippedShaped(attrs: seq<Attr>)
    requires Shaped(attrs)
    ensures Shaped(Stripped(attrs))
  {
    DropShaped(attrs, "listen");
    DropShaped(DropFirst(attrs, "listen"), "port");
    DropShaped(DropFirst(DropFirst(attrs, "listen"), "port"), "autoport");
  }

  lemma PasswordIsRemove(attrs: seq<Attr>)
    requires Clean(attrs) && Marked(attrs)
    ensures DropFirst(attrs, "passwd") == Remove(attrs, "passwd")
    ensures Clean(Remove(attrs, "passwd")) && Marked(Remove(attrs, "passwd"))
        && !Named(Remove(attrs, "passwd"), "passwd")
  {
    hide EndsWith, CleanAttr, NoTrap, Heard;
    CleanTraps(attrs);
    DropIsRemove(attrs, "passwd");
    NotSuffix("passwd", "type");
    RemoveClean(attrs, "passwd");
  }

  lemma FirstPassword(pw: string, rest: seq<Attr>)
    requires ValidPassword(pw) && Clean(rest) && Marked(rest) && !Named(rest, "passwd")
    ensures ReadFirst(After(pw, rest), "passwd") == pw <==> !LooksLikeAttr(pw)
  {
    hide Stripped, CleanAttr, ReadFirst, Remove, EndsWith;
    var s := After(pw, rest);
    if !LooksLikeAttr(pw) {
      AfterPlain(pw, rest);
    } else if EndsWith(pw, " listen=") {
      WholePassword(pw);
      assert rest[0].name != "passwd";
      AfterListenTrap(rest);
      FirstTraps(rest);
    } else {
      NotSuffix("listen", "type");
      RemoveClean(rest, "listen");
      AfterPortTrap(pw, rest);
      CutDiffers(pw, Remove(rest, "listen")[0].value);
    }
    ReadOwn(s);
  }

  lemma WholePassword(pw: string)
    requires |pw| <= 8 && EndsWith(pw, " listen=")
    ensures pw == " listen=" && EndsWith(pw, "listen=")
  {
    assert pw == pw[0..];
    assert " listen="[1..] == "listen=";
  }

  lemma CutDiffers(pw: string, v: string)
    requires EndsWith(pw, " port=") && !EndsWith(v, "port=")
    ensures pw[..|pw| - 6] + v != pw
  {
    var x := pw[..|pw| - 6];
    assert (x + v)[|x|..] == v && pw[|x|..] == " port=";
    assert " port="[1..] == "port=";
  }

  lemma ReadOwn(s: seq<Attr>)
    requires s != [] && s[0].name == "passwd"
    ensures ReadFirst(s, "passwd") == s[0].value
  {
    WholeSuffix("passwd");
  }
}
