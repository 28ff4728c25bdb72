/**
 * The header row of the CSV report: `to_csv_file` writes the literal line
 * split on commas. The lemmas here show that this gives exactly six names,
 * spelled as the source spells them (typos included) and with no spaces
 * around them.
 */
module CsvHeader {
  import opened Text

  const HeaderLine: string :=
    "Wallet Name,Barecodes,Description,Organization Name,Pass Type Identifier,Sertial Number"

  /** The six column names. */
  const HeaderNames: seq<string> :=
    ["Wallet Name", "Barecodes", "Description", "Organization Name",
     "Pass Type Identifier", "Sertial Number"]

  /** The header row: the literal line split on commas. */
  function HeaderRow(): seq<string>
  {
    Split(HeaderLine, ',')
  }

  // The header line, rebuilt from the names one comma at a time. Each step is
  // its own lemma: an equality between long string literals is cheap for the
  // solver only when it is the one such fact in view.

  lemma JoinFirst2()
    ensures Join(["Wallet Name", "Barecodes"], ',')
      == "Wallet Name,Barecodes"
  {
    JoinSnoc(["Wallet Name"], "Barecodes", ',');
    assert ["Wallet Name"] + ["Barecodes"] == ["Wallet Name", "Barecodes"];
    assert "Wallet Name" + [','] + "Barecodes" == "Wallet Name,Barecodes";
  }

  lemma JoinFirst3()
    ensures Join(["Wallet Name", "Barecodes", "Description"], ',')
      == "Wallet Name,Barecodes,Description"
  {
    JoinFirst2();
    JoinSnoc(["Wallet Name", "Barecodes"], "Description", ',');
    assert ["Wallet Name", "Barecodes"] + ["Description"] == ["Wallet Name", "Barecodes", "Description"];
    assert "Wallet Name,Barecodes" + [','] + "Description" == "Wallet Name,Barecodes,Description";
  }

  lemma JoinFirst4()
    ensures Join(["Wallet Name", "Barecodes", "Description", "Organization Name"], ',')
      == "Wallet Name,Barecodes,Description,Organization Name"
  {
    JoinFirst3();
    JoinSnoc(["Wallet Name", "Barecodes", "Description"], "Organization Name", ',');
    assert ["Wallet Name", "Barecodes", "Description"] + ["Organization Name"] == ["Wallet Name", "Barecodes", "Description", "Organization Name"];
    assert "Wallet Name,Barecodes,Description" + [','] + "Organization Name" == "Wallet Name,Barecodes,Description,Organization Name";
  }

  lemma JoinFirst5()
    ensures Join(["Wallet Name", "Barecodes", "Description", "Organization Name", "Pass Type Identifier"], ',')
      == "Wallet Name,Barecodes,Description,Organization Name,Pass Type Identifier"
  {
    JoinFirst4();
    JoinSnoc(["Wallet Name", "Barecodes", "Description", "Organization Name"], "Pass Type Identifier", ',');
    assert ["Wallet Name", "Barecodes", "Description", "Organization Name"] + ["Pass Type Identifier"] == ["Wallet Name", "Barecodes", "Description", "Organization Name", "Pass Type Identifier"];
    assert "Wallet Name,Barecodes,Description,Organization Name" + [','] + "Pass Type Identifier" == "Wallet Name,Barecodes,Description,Organization Name,Pass Type Identifier";
  }

  /** The header line is the six names joined by commas, with nothing around them. */
  lemma HeaderLineIsJoin()
    ensures Join(["Wallet Name", "Barecodes", "Description", "Organization Name", "Pass Type Identifier", "Sertial Number"], ',')
      == "Wallet Name,Barecodes,Description,Organization Name,Pass Type Identifier,Sertial Number"
  {
    JoinFirst5();
    JoinSnoc(["Wallet Name", "Barecodes", "Description", "Organization Name", "Pass Type Identifier"], "Sertial Number", ',');
    assert ["Wallet Name", "Barecodes", "Description", "Organization Name", "Pass Type Identifier"] + ["Sertial Number"] == ["Wallet Name", "Barecodes", "Description", "Organization Name", "Pass Type Identifier", "Sertial Number"];
    assert "Wallet Name,Barecodes,Description,Organization Name,Pass Type Identifier" + [','] + "Sertial Number" == "Wallet Name,Barecodes,Description,Organization Name,Pass Type Identifier,Sertial Number";
  }

  lemma HeaderNamesHaveNoComma()
    ensures forall k :: 0 <= k < |HeaderNames| ==> ',' !in HeaderNames[k]
  {
    forall k | 0 <= k < |HeaderNames| ensures ',' !in HeaderNames[k] {
    }
  }

  /** The header row is exactly the six names. */
  lemma HeaderRowColumns()
    ensures HeaderRow() == HeaderNames
  {
    HeaderLineIsJoin();
    HeaderNamesHaveNoComma();
    SplitJoin(HeaderNames, ',');
  }
}
