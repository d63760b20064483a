/** The catalog of suspicious-activity patterns: an ordered table from a
    pattern name to the event IDs that signal it, and the classifier that
    names an event ID by the first pattern, in table order, listing it. */
module Catalog {
  import opened Wrappers

  datatype Entry = Entry(name: string, ids: seq<int>)

  /** The built-in catalog, in declaration order. Several IDs are listed
      under more than one name: 7030, 4625, 4724, 4663, 7034, 7036 and 2. */
  const Events: seq<Entry> := [
    Entry("Create Service", [7030, 7045]),
    Entry("Create User", [4720, 4722, 4724, 4728]),
    Entry("Add User to Group", [4732]),
    Entry("Clear Event Log", [1102]),
    Entry("Create RDP Certificate", [1056]),
    Entry("Insert USB", [7030, 1006, 10000, 10001, 20001, 20002, 20003, 24576, 24577, 24578,
                         24579, 6416, 2100, 2101, 2102, 2103, 2104, 4500, 4501, 4663, 4727,
                         6418, 6423]),
    Entry("Disable Firewall", [2003]),
    Entry("Applocker", [8003, 8006, 8007]),
    Entry("EMET", [2]),
    Entry("Logon Failed", [4625]),
    Entry("Service Terminated Unexpectedly", [7034]),
    Entry("A service was installed in the system", [4697]),
    Entry("User Account Locked Out", [4740]),
    Entry("User Account Unlocked", [4767]),
    Entry("File Access / Deletion", [4663, 4659, 4660]),
    Entry("Terminal service session reconnected", [4778]),
    Entry("Terminal service session disconnected", [4779]),
    Entry("User Initiated Logoff", [4647]),
    Entry("A directory service object was created", [5137]),
    Entry("A directory service object was modified", [5136]),
    Entry("Permission change with old & new attributes", [4670]),
    Entry("Service Start Type Change (disable, manual, automatic)", [7040]),
    Entry("Service Start / Stop", [7036]),
    Entry("Restart Windows", [1076]),
    Entry("Shutdown Windows", [1074]),
    Entry("Logon Failure", [4625]),
    Entry("Password Change", [4723, 4724]),
    Entry("Account Disabled", [4725]),
    Entry("Account Enabled", [4731]),
    Entry("Access to Network Resource", [5140]),
    Entry("Service Failure", [7031, 7034]),
    Entry("Service Started", [7036]),
    Entry("Program Installation", [19]),
    Entry("Update Installation", [2]),
    Entry("Security Policy Change", [4739]),
    Entry("Firewall Block", [5152, 5153]),
    Entry("Driver Installation", [6006])
  ]

  /** The name of the first entry whose ID list holds `id`; None when no entry does. */
  function Classify(id: int, catalog: seq<Entry>): (r: Option<string>)
    ensures r.Some? ==> exists e :: e in catalog && id in e.ids && e.name == r.value
  {
    if catalog == [] then None
    else if id in catalog[0].ids then Some(catalog[0].name)
    else Classify(id, catalog[1..])
  }

  /** Entry `k` lists `id` and no earlier entry does. */
  ghost predicate IsFirstMatch(id: int, catalog: seq<Entry>, k: int)
  {
    0 <= k < |catalog| && id in catalog[k].ids
    && forall j :: 0 <= j < k ==> id !in catalog[j].ids
  }

  /** The IDs of one entry, as a set. */
  function IdSet(ids: seq<int>): set<int>
  {
    set x | x in ids
  }

  /** Every ID any entry lists. */
  function AllIds(catalog: seq<Entry>): set<int>
  {
    if catalog == [] then {} else AllIds(catalog[..|catalog| - 1]) + IdSet(catalog[|catalog| - 1].ids)
  }

  /** The classifier answers the name of entry `k` when `k` is the first entry listing the ID. */
  lemma {:induction false} ClassifyFirstMatch(id: int, catalog: seq<Entry>, k: int)
    requires IsFirstMatch(id, catalog, k)
    ensures Classify(id, catalog) == Some(catalog[k].name)
  {
    if k > 0 {
      ClassifyFirstMatch(id, catalog[1..], k - 1);
    }
  }

  /** Whatever name the classifier answers belongs to the first entry listing the ID. */
  lemma {:induction false} ClassifyHasFirstMatch(id: int, catalog: seq<Entry>)
    requires Classify(id, catalog).Some?
    ensures exists k :: IsFirstMatch(id, catalog, k) && catalog[k].name == Classify(id, catalog).value
  {
    if id in catalog[0].ids {
      assert IsFirstMatch(id, catalog, 0);
    } else {
      ClassifyHasFirstMatch(id, catalog[1..]);
      var k :| IsFirstMatch(id, catalog[1..], k) && catalog[1..][k].name == Classify(id, catalog[1..]).value;
      assert IsFirstMatch(id, catalog, k + 1);
    }
  }

  /** The classifier answers nothing exactly when no entry lists the ID. */
  lemma {:induction false} ClassifyNoMatch(id: int, catalog: seq<Entry>)
    ensures Classify(id, catalog).None? <==> forall k :: 0 <= k < |catalog| ==> id !in catalog[k].ids
  {
    if catalog != [] && id !in catalog[0].ids {
      ClassifyNoMatch(id, catalog[1..]);
      assert forall k :: 1 <= k < |catalog| ==> catalog[k] == catalog[1..][k - 1];
    }
  }

  /** An ID is in the union of the catalog exactly when some entry lists it. */
  lemma {:induction false} AllIdsMembership(id: int, catalog: seq<Entry>)
    ensures id in AllIds(catalog) <==> exists k :: 0 <= k < |catalog| && id in catalog[k].ids
  {
    if catalog != [] {
      var n := |catalog| - 1;
      AllIdsMembership(id, catalog[..n]);
      assert forall k :: 0 <= k < n ==> catalog[..n][k] == catalog[k];
    }
  }

  /** The classifier names exactly the IDs of the catalog's union. */
  lemma ClassifyDefinedOnCatalogIds(id: int, catalog: seq<Entry>)
    ensures Classify(id, catalog).Some? <==> id in AllIds(catalog)
  {
    AllIdsMembership(id, catalog);
    ClassifyNoMatch(id, catalog);
  }

  /* Each ID listed twice in the built-in catalog is named after its first listing. */

  /** The long "Insert USB" entry lists none of the IDs that a later entry
      also lists, apart from 4663. */
  lemma InsertUsbLacks(id: int)
    requires id == 2 || id == 4625 || id == 7034 || id == 7036
    ensures id !in Events[5].ids
  {
  }

  /** 7030 is "Create Service", not "Insert USB". */
  lemma CreateServiceWinsFor7030()
    ensures Classify(7030, Events) == Some("Create Service")
  {
    ClassifyFirstMatch(7030, Events, 0);
  }

  /** 4724 is "Create User", not "Password Change". */
  lemma CreateUserWinsFor4724()
    ensures Classify(4724, Events) == Some("Create User")
  {
    forall j | 0 <= j < 1 ensures 4724 !in Events[j].ids {
      assert j == 0;
    }
    ClassifyFirstMatch(4724, Events, 1);
  }

  /** 4663 is "Insert USB", not "File Access / Deletion". */
  lemma InsertUsbWinsFor4663()
    ensures Classify(4663, Events) == Some("Insert USB")
  {
    forall j | 0 <= j < 5 ensures 4663 !in Events[j].ids {
      assert j == 0 || j == 1 || j == 2 || j == 3 || j == 4;
    }
    ClassifyFirstMatch(4663, Events, 5);
  }

  /** 2 is "EMET", not "Update Installation". */
  lemma EmetWinsFor2()
    ensures Classify(2, Events) == Some("EMET")
  {
    forall j | 0 <= j < 8 ensures 2 !in Events[j].ids {
      if j == 5 {
        InsertUsbLacks(2);
      } else {
        assert j == 0 || j == 1 || j == 2 || j == 3 || j == 4 || j == 6 || j == 7;
      }
    }
    ClassifyFirstMatch(2, Events, 8);
  }

  /** 4625 is "Logon Failed", not "Logon Failure". */
  lemma LogonFailedWinsFor4625()
    ensures Classify(4625, Events) == Some("Logon Failed")
  {
    forall j | 0 <= j < 9 ensures 4625 !in Events[j].ids {
      if j == 5 {
        InsertUsbLacks(4625);
      } else {
        assert j == 0 || j == 1 || j == 2 || j == 3 || j == 4 || j == 6 || j == 7 || j == 8;
      }
    }
    ClassifyFirstMatch(4625, Events, 9);
  }

  /** 7034 is "Service Terminated Unexpectedly", not "Service Failure". */
  lemma ServiceTerminatedWinsFor7034()
    ensures Classify(7034, Events) == Some("Service Terminated Unexpectedly")
  {
    forall j | 0 <= j < 10 ensures 7034 !in Events[j].ids {
      if j == 5 {
        InsertUsbLacks(7034);
      } else {
        assert j == 0 || j == 1 || j == 2 || j == 3 || j == 4 || j == 6 || j == 7 || j == 8 || j == 9;
      }
    }
    ClassifyFirstMatch(7034, Events, 10);
  }

  /** 7036 is "Service Start / Stop", not "Service Started". */
  lemma ServiceStartStopWinsFor7036()
    ensures Classify(7036, Events) == Some("Service Start / Stop")
  {
    forall j | 0 <= j < 22 ensures 7036 !in Events[j].ids {
      if j == 5 {
        InsertUsbLacks(7036);
      } else {
        assert j == 0 || j == 1 || j == 2 || j == 3 || j == 4 || j == 6 || j == 7 || j == 8 || j == 9 || j == 10 || j == 11 || j == 12 || j == 13 || j == 14 || j == 15 || j == 16 || j == 17 || j == 18 || j == 19 || j == 20 || j == 21;
      }
    }
    ClassifyFirstMatch(7036, Events, 22);
  }

  /** An entry whose name no other entry carries, and whose only ID an
      earlier entry already lists, is never the classifier's answer. */
  lemma {:induction false} ShadowedEntryNeverChosen(catalog: seq<Entry>, pos: int, earlier: int, id: int)
    requires 0 <= earlier < pos < |catalog|
    requires |catalog[pos].ids| == 1 && catalog[pos].ids[0] in catalog[earlier].ids
    requires forall k :: 0 <= k < |catalog| && k != pos ==> catalog[k].name != catalog[pos].name
    ensures Classify(id, catalog) != Some(catalog[pos].name)
  {
    if Classify(id, catalog) == Some(catalog[pos].name) {
      ClassifyHasFirstMatch(id, catalog);
      assert false;
    }
  }

  /** The positions of the built-in catalog, one by one, for proofs that
      go through its entries. */
  lemma EventsPositions(k: int)
    requires 0 <= k < |Events|
    ensures k == 0 || k == 1 || k == 2 || k == 3 || k == 4 || k == 5 || k == 6 || k == 7 || k == 8 || k == 9 || k == 10 || k == 11 || k == 12 || k == 13 || k == 14 || k == 15 || k == 16 || k == 17 || k == 18 || k == 19 || k == 20 || k == 21 || k == 22 || k == 23 || k == 24 || k == 25 || k == 26 || k == 27 || k == 28 || k == 29 || k == 30 || k == 31 || k == 32 || k == 33 || k == 34 || k == 35 || k == 36
  {
  }

  /** Only entry 25 of the built-in catalog is named "Logon Failure". */
  lemma LogonFailureNamedOnce()
    ensures forall k :: 0 <= k < |Events| && k != 25 ==> Events[k].name != "Logon Failure"
  {
    forall k | 0 <= k < |Events| && k != 25 ensures Events[k].name != "Logon Failure" {
      EventsPositions(k);
    }
  }

  /** "Logon Failure" lists only 4625, which "Logon Failed" lists first. */
  lemma LogonFailureNeverChosen(id: int)
    ensures Classify(id, Events) != Some("Logon Failure")
  {
    LogonFailureNamedOnce();
    ShadowedEntryNeverChosen(Events, 25, 9, id);
  }

  /** Only entry 31 of the built-in catalog is named "Service Started". */
  lemma ServiceStartedNamedOnce()
    ensures forall k :: 0 <= k < |Events| && k != 31 ==> Events[k].name != "Service Started"
  {
    forall k | 0 <= k < |Events| && k != 31 ensures Events[k].name != "Service Started" {
      EventsPositions(k);
    }
  }

  /** "Service Started" lists only 7036, which "Service Start / Stop" lists first. */
  lemma ServiceStartedNeverChosen(id: int)
    ensures Classify(id, Events) != Some("Service Started")
  {
    ServiceStartedNamedOnce();
    ShadowedEntryNeverChosen(Events, 31, 22, id);
  }

  /** Only entry 33 of the built-in catalog is named "Update Installation". */
  lemma UpdateInstallationNamedOnce()
    ensures forall k :: 0 <= k < |Events| && k != 33 ==> Events[k].name != "Update Installation"
  {
    forall k | 0 <= k < |Events| && k != 33 ensures Events[k].name != "Update Installation" {
      EventsPositions(k);
    }
  }

  /** "Update Installation" lists only 2, which "EMET" lists first. */
  lemma UpdateInstallationNeverChosen(id: int)
    ensures Classify(id, Events) != Some("Update Installation")
  {
    UpdateInstallationNamedOnce();
    ShadowedEntryNeverChosen(Events, 33, 8, id);
  }

  /** Every name of the built-in catalog is a non-empty string, so a found
      name always passes the reader's truthiness test. */
  lemma EventsNamesNonEmpty()
    ensures forall k :: 0 <= k < |Events| ==> Events[k].name != ""
  {
  }
}
