/**
 When the printed manifest is legal TOML: the strict reader accepts it exactly
 when every table has distinct keys and no string or key holds U+007F.
 */
module TomlLegal {
  import opened Collections
  import opened Decimals
  import opened TomlText

  // ----- What the strict reader has consumed -----

  /** `rest` is what remains of `s` behind a text without a raw delete character. */
  ghost predicate Consumed(s: string, rest: string) {
    |rest| <= |s| && s[|s| - |rest|..] == rest && DELETE !in s[..|s| - |rest|]
  }

  lemma ConsumedPrefix(s: string, k: nat)
    requires k <= |s| && forall i :: 0 <= i < k ==> s[i] != DELETE
    ensures Consumed(s, s[k..])
  {
  }

  lemma ConsumedTransitive(s: string, middle: string, rest: string)
    requires Consumed(s, middle) && Consumed(middle, rest)
    ensures Consumed(s, rest)
  {
    var k, n := |s| - |middle|, |s| - |rest|;
    forall i | 0 <= i < n ensures s[i] != DELETE {
      if i < k {
        assert s[..k][i] == s[i];
      } else {
        assert middle[..|middle| - |rest|][i - k] == middle[i - k] == s[i];
      }
    }
  }

  /** After a separator of `k` characters. */
  lemma ConsumedOn(s: string, middle: string, k: nat, rest: string)
    requires Consumed(s, middle) && k <= |middle| && forall i :: 0 <= i < k ==> middle[i] != DELETE
    requires Consumed(middle[k..], rest)
    ensures Consumed(s, rest)
  {
    ConsumedPrefix(middle, k);
    ConsumedTransitive(middle, middle[k..], rest);
    ConsumedTransitive(s, middle, rest);
  }

  lemma CharConsumed(s: string)
    requires ReadChar(s, true).Some?
    ensures Consumed(s, ReadChar(s, true).value.1) && ReadChar(s, false) == ReadChar(s, true)
  {
    var rest := ReadChar(s, true).value.1;
    ConsumedPrefix(s, |s| - |rest|);
  }

  lemma {:induction false} BodyConsumed(s: string)
    requires ReadBody(s, true).Some?
    ensures Consumed(s, ReadBody(s, true).value.1) && ReadBody(s, false) == ReadBody(s, true)
    decreases |s|
  {
    if s != "" && s[0] == QUOTE {
      ConsumedPrefix(s, 1);
    } else {
      CharConsumed(s);
      var rest := ReadChar(s, true).value.1;
      BodyConsumed(rest);
      ConsumedTransitive(s, rest, ReadBody(rest, true).value.1);
    }
  }

  lemma NumberConsumed(s: string)
    requires ReadNumber(s).Some?
    ensures Consumed(s, ReadNumber(s).value.1)
  {
    var k := DigitCount(s);
    assert forall i :: 0 <= i < k ==> IsDigit(s[..k][i]);
    ConsumedPrefix(s, k);
  }

  lemma ScalarConsumed(s: string)
    requires ReadValue(s, true).Some? && s[0] !in {'[', '{'}
    ensures Consumed(s, ReadValue(s, true).value.1) && ReadValue(s, false) == ReadValue(s, true)
    ensures IsDictionary(ReadValue(s, true).value.0)
  {
    var rest := ReadValue(s, true).value.1;
    if s[0] == QUOTE {
      BodyConsumed(s[1..]);
      ConsumedOn(s, s, 1, rest);
    } else if s[0] == '-' {
      NumberConsumed(s[1..]);
      ConsumedOn(s, s, 1, rest);
    } else if s[0] in {'t', 'f'} {
      ConsumedPrefix(s, |s| - |rest|);
    } else {
      NumberConsumed(s);
    }
  }

  /**
   What the strict reader takes has distinct keys, holds no raw delete character and is
   read alike by the other one.
   */
  lemma {:induction false} ValueConsumed(s: string)
    requires ReadValue(s, true).Some?
    ensures Consumed(s, ReadValue(s, true).value.1) && ReadValue(s, false) == ReadValue(s, true)
    ensures IsDictionary(ReadValue(s, true).value.0)
    decreases |s|, 0
  {
    var rest := ReadValue(s, true).value.1;
    if s[0] !in {'[', '{'} {
      ScalarConsumed(s);
    } else if (s[0] == '[' && |s| > 1 && s[1] == ']') || "{  }" <= s {
      ConsumedPrefix(s, |s| - |rest|);
    } else if s[0] == '[' {
      ItemsConsumed(s[1..]);
      ConsumedOn(s, s, 1, rest);
    } else {
      EntriesConsumed(s[2..]);
      ConsumedOn(s, s, 2, rest);
    }
  }

  lemma {:induction false} ItemsConsumed(s: string)
    requires ReadItems(s, true).Some?
    ensures Consumed(s, ReadItems(s, true).value.1) && ReadItems(s, false) == ReadItems(s, true)
    ensures forall item :: item in ReadItems(s, true).value.0 ==> IsDictionary(item)
    decreases |s|, 1
  {
    ValueConsumed(s);
    var rest := ReadValue(s, true).value.1;
    if "]" <= rest {
      ConsumedOn(s, rest, 1, rest[1..]);
    } else {
      ItemsConsumed(rest[2..]);
      ConsumedOn(s, rest, 2, ReadItems(rest[2..], true).value.1);
    }
  }

  lemma {:induction false} EntryConsumed(s: string)
    requires ReadEntry(s, true).Some?
    ensures Consumed(s, ReadEntry(s, true).value.1) && ReadEntry(s, false) == ReadEntry(s, true)
    ensures IsDictionary(ReadEntry(s, true).value.0.1)
    decreases |s|, 1
  {
    BodyConsumed(s[1..]);
    var rest := ReadBody(s[1..], true).value.1;
    ConsumedOn(s, s, 1, rest);
    ValueConsumed(rest[3..]);
    ConsumedOn(s, rest, 3, ReadValue(rest[3..], true).value.1);
  }

  /** Distinct keys, and dictionaries as values. */
  predicate IsTable(entries: seq<(string, Value)>) {
    DistinctKeys(entries) && forall entry :: entry in entries ==> IsDictionary(entry.1)
  }

  lemma TableGrows(entry: (string, Value), entries: seq<(string, Value)>)
    requires IsTable(entries) && IsDictionary(entry.1) && entry.0 !in Keys(entries)
    ensures IsTable([entry] + entries)
  {
    var all := [entry] + entries;
    forall i, j | 0 <= i < j < |all| ensures all[i].0 != all[j].0 {
      assert all[j] == entries[j - 1];
      if i > 0 { assert all[i] == entries[i - 1]; }
    }
  }

  /** How the entries continue behind the first: alike for both readers. */
  lemma MoreEntries(s: string)
    requires ReadEntries(s, true).Some? && ReadEntry(s, true).Some? && ReadEntry(s, false) == ReadEntry(s, true)
    requires !(" }" <= ReadEntry(s, true).value.1)
    ensures var (entry, rest) := ReadEntry(s, true).value;
            && ", " <= rest && ReadEntries(rest[2..], true).Some?
            && entry.0 !in Keys(ReadEntries(rest[2..], true).value.0)
            && ReadEntries(s, true)
               == Some(([entry] + ReadEntries(rest[2..], true).value.0, ReadEntries(rest[2..], true).value.1))
            && (ReadEntries(rest[2..], false) == ReadEntries(rest[2..], true) ==>
                  ReadEntries(s, false) == ReadEntries(s, true))
  {
  }

  lemma {:induction false} EntriesConsumed(s: string)
    requires ReadEntries(s, true).Some?
    ensures Consumed(s, ReadEntries(s, true).value.1) && ReadEntries(s, false) == ReadEntries(s, true)
    ensures IsTable(ReadEntries(s, true).value.0)
    decreases |s|, 2
  {
    EntryConsumed(s);
    var (entry, rest) := ReadEntry(s, true).value;
    if " }" <= rest {
      ConsumedOn(s, rest, 2, rest[2..]);
    } else {
      MoreEntries(s);
      EntriesConsumed(rest[2..]);
      var (entries, after) := ReadEntries(rest[2..], true).value;
      ConsumedOn(s, rest, 2, after);
      TableGrows(entry, entries);
    }
  }

  lemma {:induction false} LinesConsumed(s: string)
    requires ReadLines(s, true).Some?
    ensures DELETE !in s && ReadLines(s, false) == ReadLines(s, true)
    ensures IsTable(ReadLines(s, true).value)
    decreases |s|
  {
    EntryConsumed(s);
    var (entry, rest) := ReadEntry(s, true).value;
    if rest == "\n" {
      ConsumedOn(s, rest, 1, rest[1..]);
      assert s[..|s|] == s;
    } else {
      LinesConsumed(rest[1..]);
      ConsumedPrefix(rest[1..], |rest[1..]|);
      ConsumedOn(s, rest, 1, rest[1..][|rest[1..]|..]);
      assert s[..|s|] == s;
      TableGrows(entry, ReadLines(rest[1..], true).value);
    }
  }

  // ----- The manifest -----

  lemma {:induction false} LinesClean(manifest: Manifest)
    ensures DELETE in ManifestLines(manifest) <==> exists entry :: entry in manifest && EntryHoldsDelete(entry)
  {
    if manifest != [] {
      EntryClean(manifest[0]);
      LinesClean(manifest[1..]);
      FirstOrRest(manifest, EntryHoldsDelete);
      CleanConcat(PrintEntry(manifest[0]), if |manifest| == 1 then "" else "\n" + ManifestLines(manifest[1..]));
      CleanConcat("\n", ManifestLines(manifest[1..]));
    }
  }

  lemma LegalTableIff(entries: seq<(string, Value)>)
    ensures LegalTable(entries) <==> IsTable(entries) && !exists entry :: entry in entries && EntryHoldsDelete(entry)
  {
  }

  /**
   The text of a manifest is legal TOML exactly when the manifest is a dictionary
   and no string or key in it holds the delete character; it then means the manifest.
   */
  lemma LegalIff(manifest: Manifest)
    ensures ReadManifest(ManifestText(manifest), true).Some? <==>
              IsTable(manifest) && !exists entry :: entry in manifest && EntryHoldsDelete(entry)
    ensures ReadManifest(ManifestText(manifest), true).Some? ==>
              ReadManifest(ManifestText(manifest), true).value == manifest
  {
    var text := ManifestText(manifest);
    LegalTableIff(manifest);
    if LegalTable(manifest) {
      ManifestRead(manifest, true);
    }
    if manifest != [] && ReadManifest(text, true).Some? {
      assert ManifestText(manifest)[0] == QUOTE;
      LinesConsumed(text);
      ManifestRead(manifest, false);
      LinesClean(manifest);
      CleanConcat(ManifestLines(manifest), "\n");
    }
  }

  /** The printer reads its own text back and refuses a manifest whose text is not legal or means something else. */
  function CheckedText(manifest: Manifest): Option<string> {
    var text := ManifestText(manifest);
    if ReadManifest(text, true) == Some(manifest) then Some(text) else None
  }

  /** For a dictionary the self-check refuses exactly the delete character. */
  lemma CheckRefusesExactlyDelete(manifest: Manifest)
    requires IsTable(manifest)
    ensures CheckedText(manifest).Some? <==> !exists entry :: entry in manifest && EntryHoldsDelete(entry)
  {
    LegalIff(manifest);
  }

  /** A crate described with U+007F, which its own manifest writes as an escape, cannot be printed. */
  lemma DeleteInDescription() returns (manifest: Manifest)
    ensures manifest == [("description", Str([DELETE]))] && IsTable(manifest) && CheckedText(manifest).None?
  {
    var entry := ("description", Str([DELETE]));
    manifest := [entry];
    assert entry in manifest && EntryHoldsDelete(entry);
    CheckRefusesExactlyDelete(manifest);
  }
}
