/**
 * The project-code page (app/code/page.tsx): a fixed table of project codes, the submit
 * handler that looks a code up, and the project it shows.
 */
module CodeLookup {
  import opened Options
  import opened Strings
  import opened Seqs

  datatype Project = Project(title: string, description: string, route: Option<string>)

  /** One property of the `projects` object: a code and its project. */
  datatype Entry = Entry(code: string, project: Project)

  /** The `projects` table, in source order; no code occurs twice. */
  const Table: seq<Entry> := [
    Entry("1300", Project("Weather App", "Real-time weather data powered by OpenMeteo", Some("/code/1300"))),
    Entry("CT-01", Project("CACTO", "A prickly friend with social connections", Some("/code/ct-01"))),
    Entry("NT-01", Project("Neural Text Analyzer", "Analyze text sentiment and metrics", Some("/code/nt-01"))),
    Entry("NT-02", Project("What is My IP", "Discover your public IP address instantly", Some("/code/nt-02"))),
    Entry("NT-03", Project("DNS Lookup", "Find IP addresses connected to domains", Some("/code/nt-03"))),
    Entry("PL-01", Project("JSON Formatter", "Format and validate JSON with ease", Some("/code/pl-01"))),
    Entry("CL-01", Project("Base64 Encoder/Decoder", "Encode and decode Base64 strings", Some("/code/cl-01"))),
    Entry("CL-02", Project("Hash Generator", "Generate SHA-256, SHA-512, and more", Some("/code/cl-02"))),
    Entry("AR-01", Project("AR Canvas", "Free-form drawing and creative tool", Some("/code/ar-01"))),
    Entry("DR-01", Project("Drawing App", "Advanced drawing with brushes and colors", Some("/code/dr-01"))),
    Entry("LG-01", Project("Login", "Access your account", Some("/code/lg-01"))),
    Entry("SU-01", Project("Signup", "Create a new account", Some("/code/su-01"))),
    Entry("ALL-01", Project("Admin Dashboard", "View all available codes and projects", Some("/code/all-01"))),
    Entry("AP-01", Project("Admin Panel", "Manage users and admin privileges", Some("/code/ap-01"))),
    Entry("FH-01", Project("File Hosting", "Secure file storage and management", Some("/code/fh-01"))),
    Entry("24918", Project("Project Alpha", "A cutting-edge development project", None)),
    Entry("12345", Project("Project Beta", "Innovative solutions for modern challenges", None)),
    Entry("54321", Project("Project Gamma", "Next-generation technology platform", None))
  ]

  /** The project filed under `key` among `entries`, if any. */
  function LookupIn(entries: seq<Entry>, key: string): (r: Option<Project>)
    ensures r.Some? ==> Entry(key, r.value) in entries
    ensures r.None? <==> forall e :: e in entries ==> e.code != key
  {
    if |entries| == 0 then None
    else if entries[0].code == key then Some(entries[0].project)
    else LookupIn(entries[1..], key)
  }

  /** `projects[key]` for one of the table's own codes. */
  function Lookup(key: string): Option<Project>
  {
    LookupIn(Table, key)
  }

  const Unrouted: set<string> := {"24918", "12345", "54321"}

  /** The codes without a route are exactly the three numbered projects; every other code
      routes to "/code/" followed by its lower-cased key. */
  lemma RoutesFollowKeys(i: nat)
    requires i < |Table|
    ensures Table[i].project.route.None? <==> Table[i].code in Unrouted
    ensures Table[i].code !in Unrouted ==> Table[i].project.route == Some("/code/" + ToLower(Table[i].code))
  {
    if i < 3 {
      RoutedKeys0(i);
    } else if i < 6 {
      RoutedKeys1(i);
    } else if i < 9 {
      RoutedKeys2(i);
    } else if i < 12 {
      RoutedKeys3(i);
    } else if i < 15 {
      RoutedKeys4(i);
    } else {
      UnroutedKeys(i);
    }
  }

  lemma RoutedKeys0(i: nat)
    requires 0 <= i < 3
    ensures Table[i].project.route.None? <==> Table[i].code in Unrouted
    ensures Table[i].code !in Unrouted ==> Table[i].project.route == Some("/code/" + ToLower(Table[i].code))
  {
    if i == 0 {
      LowerLiteral("1300", "1300");
      assert Table[i].code == "1300";
      assert "/code/" + "1300" == "/code/1300";
      assert Table[i].project.route == Some("/code/1300");
    } else if i == 1 {
      LowerLiteral("CT-01", "ct-01");
      assert Table[i].code == "CT-01";
      assert "/code/" + "ct-01" == "/code/ct-01";
      assert Table[i].project.route == Some("/code/ct-01");
    } else if i == 2 {
      LowerLiteral("NT-01", "nt-01");
      assert Table[i].code == "NT-01";
      assert "/code/" + "nt-01" == "/code/nt-01";
      assert Table[i].project.route == Some("/code/nt-01");
    }
  }

  lemma RoutedKeys1(i: nat)
    requires 3 <= i < 6
    ensures Table[i].project.route.None? <==> Table[i].code in Unrouted
    ensures Table[i].code !in Unrouted ==> Table[i].project.route == Some("/code/" + ToLower(Table[i].code))
  {
    if i == 3 {
      LowerLiteral("NT-02", "nt-02");
      assert Table[i].code == "NT-02";
      assert "/code/" + "nt-02" == "/code/nt-02";
      assert Table[i].project.route == Some("/code/nt-02");
    } else if i == 4 {
      LowerLiteral("NT-03", "nt-03");
      assert Table[i].code == "NT-03";
      assert "/code/" + "nt-03" == "/code/nt-03";
      assert Table[i].project.route == Some("/code/nt-03");
    } else if i == 5 {
      LowerLiteral("PL-01", "pl-01");
      assert Table[i].code == "PL-01";
      assert "/code/" + "pl-01" == "/code/pl-01";
      assert Table[i].project.route == Some("/code/pl-01");
    }
  }

  lemma RoutedKeys2(i: nat)
    requires 6 <= i < 9
    ensures Table[i].project.route.None? <==> Table[i].code in Unrouted
    ensures Table[i].code !in Unrouted ==> Table[i].project.route == Some("/code/" + ToLower(Table[i].code))
  {
    if i == 6 {
      LowerLiteral("CL-01", "cl-01");
      assert Table[i].code == "CL-01";
      assert "/code/" + "cl-01" == "/code/cl-01";
      assert Table[i].project.route == Some("/code/cl-01");
    } else if i == 7 {
      LowerLiteral("CL-02", "cl-02");
      assert Table[i].code == "CL-02";
      assert "/code/" + "cl-02" == "/code/cl-02";
      assert Table[i].project.route == Some("/code/cl-02");
    } else if i == 8 {
      LowerLiteral("AR-01", "ar-01");
      assert Table[i].code == "AR-01";
      assert "/code/" + "ar-01" == "/code/ar-01";
      assert Table[i].project.route == Some("/code/ar-01");
    }
  }

  lemma RoutedKeys3(i: nat)
    requires 9 <= i < 12
    ensures Table[i].project.route.None? <==> Table[i].code in Unrouted
    ensures Table[i].code !in Unrouted ==> Table[i].project.route == Some("/code/" + ToLower(Table[i].code))
  {
    if i == 9 {
      LowerLiteral("DR-01", "dr-01");
      assert Table[i].code == "DR-01";
      assert "/code/" + "dr-01" == "/code/dr-01";
      assert Table[i].project.route == Some("/code/dr-01");
    } else if i == 10 {
      LowerLiteral("LG-01", "lg-01");
      assert Table[i].code == "LG-01";
      assert "/code/" + "lg-01" == "/code/lg-01";
      assert Table[i].project.route == Some("/code/lg-01");
    } else if i == 11 {
      LowerLiteral("SU-01", "su-01");
      assert Table[i].code == "SU-01";
      assert "/code/" + "su-01" == "/code/su-01";
      assert Table[i].project.route == Some("/code/su-01");
    }
  }

  lemma RoutedKeys4(i: nat)
    requires 12 <= i < 15
    ensures Table[i].project.route.None? <==> Table[i].code in Unrouted
    ensures Table[i].code !in Unrouted ==> Table[i].project.route == Some("/code/" + ToLower(Table[i].code))
  {
    if i == 12 {
      LowerLiteral("ALL-01", "all-01");
      assert Table[i].code == "ALL-01";
      assert "/code/" + "all-01" == "/code/all-01";
      assert Table[i].project.route == Some("/code/all-01");
    } else if i == 13 {
      LowerLiteral("AP-01", "ap-01");
      assert Table[i].code == "AP-01";
      assert "/code/" + "ap-01" == "/code/ap-01";
      assert Table[i].project.route == Some("/code/ap-01");
    } else if i == 14 {
      LowerLiteral("FH-01", "fh-01");
      assert Table[i].code == "FH-01";
      assert "/code/" + "fh-01" == "/code/fh-01";
      assert Table[i].project.route == Some("/code/fh-01");
    }
  }

  lemma UnroutedKeys(i: nat)
    requires 15 <= i < |Table|
    ensures Table[i].project.route.None? <==> Table[i].code in Unrouted
    ensures Table[i].code !in Unrouted ==> Table[i].project.route == Some("/code/" + ToLower(Table[i].code))
  {
  }

  lemma LowerLiteral(s: string, t: string)
    requires |s| == |t| && forall i :: 0 <= i < |s| ==> LowerChar(s[i]) == t[i]
    ensures ToLower(s) == t
  {
  }

  /** The page state `handleSubmit` writes. */
  datatype CodePage = CodePage(enteredCode: Option<string>, error: Option<string>)

  const EnterACode := "Please enter a code"
  const InvalidCode := "Invalid code"

  /** `handleSubmit`: a blank code leaves `enteredCode` alone; otherwise the trimmed code is
      recorded, and an unknown one is flagged. Lookup is by exact, case-sensitive key. */
  function HandleSubmit(page: CodePage, code: string): (r: CodePage)
    ensures IsBlank(code) ==> r == CodePage(page.enteredCode, Some(EnterACode))
    ensures !IsBlank(code) ==> r.enteredCode == Some(Trim(code))
    ensures !IsBlank(code) ==> (r.error == None <==> Lookup(Trim(code)).Some?)
    ensures !IsBlank(code) && Lookup(Trim(code)).None? ==> r.error == Some(InvalidCode)
  {
    if IsBlank(code) then CodePage(page.enteredCode, Some(EnterACode))
    else
      var key := Trim(code);
      CodePage(Some(key), if Lookup(key).Some? then None else Some(InvalidCode))
  }

  /** `currentProject`: the project of the recorded code, if any. */
  function CurrentProject(page: CodePage): (r: Option<Project>)
    ensures page.enteredCode.None? ==> r.None?
    ensures page.enteredCode.Some? ==> r == Lookup(page.enteredCode.value)
  {
    match page.enteredCode
    case None => None
    case Some(key) => Lookup(key)
  }

  /** After a successful submission the page shows the submitted project; after a blank one
      it keeps showing whatever it showed before. */
  lemma SubmitThenShow(page: CodePage, code: string)
    ensures !IsBlank(code) && Lookup(Trim(code)).Some? ==>
              CurrentProject(HandleSubmit(page, code)) == Lookup(Trim(code))
    ensures IsBlank(code) ==> CurrentProject(HandleSubmit(page, code)) == CurrentProject(page)
  {
  }

  /** Every code is one to six characters long and starts with a digit or an upper-case
      letter. */
  lemma CodeShapes()
    ensures forall e :: e in Table ==> 0 < |e.code| <= 6 && e.code[0] <= 'Z'
  {
    forall e | e in Table
      ensures 0 < |e.code| <= 6 && e.code[0] <= 'Z'
    {
      var i :| 0 <= i < |Table| && Table[i] == e;
      CodeShapeAt(i);
    }
  }

  lemma CodeShapeAt(i: nat)
    requires i < |Table|
    ensures 0 < |Table[i].code| <= 6 && Table[i].code[0] <= 'Z'
  {
  }

  /** Keys are case-sensitive: a code typed starting in lower case is never found. */
  lemma LowerCaseCodeIsInvalid(page: CodePage, code: string)
    requires !IsBlank(code) && 'a' <= Trim(code)[0] <= 'z'
    ensures HandleSubmit(page, code).error == Some(InvalidCode)
  {
    LookupAboveZ(Trim(code));
  }

  /** No code of the table starts with a character after 'Z'. */
  lemma LookupAboveZ(key: string)
    requires |key| > 0 && key[0] > 'Z'
    ensures Lookup(key).None?
  {
    CodeShapes();
  }

  // The lookup as the page writes it, `projects[code]` on a plain object: besides the
  // table's own keys, every property inherited from `Object.prototype` is found too, and
  // its value (a function, or the prototype object for `__proto__`) is truthy.

  const InheritedNames: set<string> := {
    "constructor", "hasOwnProperty", "isPrototypeOf", "propertyIsEnumerable",
    "toLocaleString", "toString", "valueOf", "__proto__",
    "__defineGetter__", "__defineSetter__", "__lookupGetter__", "__lookupSetter__"
  }

  /** Whether `projects[key]` is truthy on the object as written. */
  predicate FoundAsWritten(key: string)
  {
    Lookup(key).Some? || key in InheritedNames
  }

  function HandleSubmitAsWritten(page: CodePage, code: string): (r: CodePage)
    ensures !IsBlank(code) ==> (r.error == None <==> FoundAsWritten(Trim(code)))
  {
    if IsBlank(code) then CodePage(page.enteredCode, Some(EnterACode))
    else
      var key := Trim(code);
      CodePage(Some(key), if FoundAsWritten(key) then None else Some(InvalidCode))
  }

  /** The code "toString" is accepted as written, with no project behind it, while the
      own-key lookup reports it as invalid. */
  lemma InheritedNameAccepted(page: CodePage)
    ensures Lookup("toString").None?
    ensures HandleSubmitAsWritten(page, "toString").error == None
    ensures HandleSubmit(page, "toString").error == Some(InvalidCode)
  {
    var name := "toString";
    LettersAreNotSpace(name);
    TrimOfUnspaced(name);
    LookupAboveZ(name);
  }

  lemma LettersAreNotSpace(s: string)
    requires forall i :: 0 <= i < |s| ==> 'a' <= s[i] <= 'z' || 'A' <= s[i] <= 'Z'
    ensures forall i :: 0 <= i < |s| ==> !IsSpace(s[i])
  {
  }

  lemma TrimOfUnspaced(s: string)
    requires forall i :: 0 <= i < |s| ==> !IsSpace(s[i])
    ensures Trim(s) == s
  {
  }

  /** On every code that is not an inherited name, the two lookups agree. */
  lemma AsWrittenAgreesElsewhere(page: CodePage, code: string)
    requires Trim(code) !in InheritedNames
    ensures HandleSubmitAsWritten(page, code) == HandleSubmit(page, code)
  {
  }
}
