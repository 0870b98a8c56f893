/**
 * The valve's configuration (the attributes of its `<Valve>` element) and the
 * setters through which the container fills it in.
 */
module ValveConfig {
  import opened Nullable
  import opened JavaStrings

  /** The separator between entries of the `trustedAddresses` attribute. */
  const LIST_SEPARATOR: char := ';'

  /** The valve's configured fields; `null` strings are `None`. */
  datatype Config = Config(
    trustedAddresses: seq<string>,
    userId: Option<string>,
    password: Option<string>,
    loggingEnabled: bool)

  /** The configuration of a freshly constructed valve. */
  const InitialConfig: Config := Config([], None, None, false)

  /** A configuration list entry: non-empty, trimmed, free of the separator. */
  predicate IsListEntry(s: string) {
    s != [] && IsTrimmed(s) && LIST_SEPARATOR !in s
  }

  /**
   * What the setters maintain: every trusted address is a list entry, and a
   * stored user id or password, once set, is never empty.
   */
  predicate Wf(c: Config) {
    && (forall i :: 0 <= i < |c.trustedAddresses| ==> IsListEntry(c.trustedAddresses[i]))
    && (c.userId.Some? ==> c.userId.value != [])
    && (c.password.Some? ==> c.password.value != [])
  }

  /** What one piece contributes: its trimmed form, or nothing when that is empty. */
  function EntryOf(piece: string): (r: seq<string>)
    ensures |r| <= 1
    ensures r == [] <==> Trim(piece) == []
    ensures forall i :: 0 <= i < |r| ==> r[i] == Trim(piece) && r[i] != [] && IsTrimmed(r[i])
    ensures LIST_SEPARATOR !in piece ==> forall i :: 0 <= i < |r| ==> LIST_SEPARATOR !in r[i]
  {
    TrimKeepsCharacters(piece, LIST_SEPARATOR);
    var t := Trim(piece);
    if t == [] then [] else [t]
  }

  /** The trimmed form of each piece, in order, leaving out the pieces that trim to nothing. */
  function TrimmedEntries(pieces: seq<string>): (r: seq<string>)
    ensures |r| <= |pieces|
    ensures forall i :: 0 <= i < |r| ==> r[i] != [] && IsTrimmed(r[i])
    ensures (forall i :: 0 <= i < |pieces| ==> LIST_SEPARATOR !in pieces[i]) ==>
              forall i :: 0 <= i < |r| ==> LIST_SEPARATOR !in r[i]
    ensures forall x :: x in r <==> exists i :: 0 <= i < |pieces| && x == Trim(pieces[i]) && x != []
  {
    if pieces == [] then [] else EntryOf(pieces[0]) + TrimmedEntries(pieces[1..])
  }

  /** The entries that one non-empty attribute value contributes. */
  function ParseList(s: string): (r: seq<string>)
    ensures forall i :: 0 <= i < |r| ==> IsListEntry(r[i])
  {
    TrimmedEntries(JavaSplit(s, LIST_SEPARATOR))
  }

  /**
   * `convertToList`: a null or empty value leaves `list` as it is; otherwise
   * the value's entries are appended after the old elements, in order.
   */
  function ConvertToList(s: Option<string>, list: seq<string>): (r: seq<string>)
    ensures !Present(s) ==> r == list
    ensures list <= r
    ensures Present(s) ==> r[|list|..] == ParseList(s.value)
    ensures forall i :: |list| <= i < |r| ==> IsListEntry(r[i])
  {
    if Present(s) then list + ParseList(s.value) else list
  }

  /** `setTrustedAddresses`: appends the parsed entries to the trusted addresses. */
  function SetTrustedAddresses(c: Config, s: Option<string>): (r: Config)
    ensures r.trustedAddresses == ConvertToList(s, c.trustedAddresses)
    ensures r.userId == c.userId && r.password == c.password
    ensures r.loggingEnabled == c.loggingEnabled
  {
    c.(trustedAddresses := ConvertToList(s, c.trustedAddresses))
  }

  /** `setUserId`: a null or empty value keeps the old user id. */
  function SetUserId(c: Config, userId: Option<string>): (r: Config)
    ensures Present(userId) ==> r.userId == userId
    ensures !Present(userId) ==> r == c
    ensures r.trustedAddresses == c.trustedAddresses && r.password == c.password
    ensures r.loggingEnabled == c.loggingEnabled
  {
    if Present(userId) then c.(userId := userId) else c
  }

  /** `setPassword`: a null or empty value keeps the old password. */
  function SetPassword(c: Config, password: Option<string>): (r: Config)
    ensures Present(password) ==> r.password == password
    ensures !Present(password) ==> r == c
    ensures r.trustedAddresses == c.trustedAddresses && r.userId == c.userId
    ensures r.loggingEnabled == c.loggingEnabled
  {
    if Present(password) then c.(password := password) else c
  }

  /** `setLoggingEnabled`: a null value keeps the old flag. */
  function SetLoggingEnabled(c: Config, enabled: Option<bool>): (r: Config)
    ensures enabled.Some? ==> r.loggingEnabled == enabled.value
    ensures enabled.None? ==> r == c
    ensures r.trustedAddresses == c.trustedAddresses
    ensures r.userId == c.userId && r.password == c.password
  {
    if enabled.Some? then c.(loggingEnabled := enabled.value) else c
  }

  /** `TrimmedEntries` distributes over concatenation. */
  lemma {:induction false} TrimmedEntriesAppend(a: seq<string>, b: seq<string>)
    ensures TrimmedEntries(a + b) == TrimmedEntries(a) + TrimmedEntries(b)
    decreases |a|
  {
    if a == [] {
      assert a + b == b;
    } else {
      var ab := a + b;
      assert ab[0] == a[0];
      assert ab[1..] == a[1..] + b;
      TrimmedEntriesAppend(a[1..], b);
      calc {
        TrimmedEntries(ab);
        EntryOf(a[0]) + TrimmedEntries(a[1..] + b);
        EntryOf(a[0]) + (TrimmedEntries(a[1..]) + TrimmedEntries(b));
        (EntryOf(a[0]) + TrimmedEntries(a[1..])) + TrimmedEntries(b);
        TrimmedEntries(a) + TrimmedEntries(b);
      }
    }
  }

  /** Pieces that are already list entries come through unchanged. */
  lemma {:induction false} TrimmedEntriesOfEntries(pieces: seq<string>)
    requires forall i :: 0 <= i < |pieces| ==> IsListEntry(pieces[i])
    ensures TrimmedEntries(pieces) == pieces
    decreases |pieces|
  {
    if pieces != [] {
      TrimFixedPoint(pieces[0]);
      TrimmedEntriesOfEntries(pieces[1..]);
      assert pieces == [pieces[0]] + pieces[1..];
    }
  }

  /** Empty pieces at the end contribute nothing, so dropping them changes nothing. */
  lemma {:induction false} TrimmedEntriesDropTrailingEmpty(pieces: seq<string>)
    ensures TrimmedEntries(DropTrailingEmpty(pieces)) == TrimmedEntries(pieces)
    decreases |pieces|
  {
    if pieces != [] && pieces[|pieces| - 1] == [] {
      var init := pieces[..|pieces| - 1];
      assert pieces == init + [[]];
      TrimmedEntriesDropTrailingEmpty(init);
      assert Trim([]) == [];
      assert TrimmedEntries([[]]) == [];
      TrimmedEntriesAppend(init, [[]]);
      assert TrimmedEntries(init) + [] == TrimmedEntries(init);
    }
  }

  /**
   * Java's removal of trailing empty pieces makes no difference to the
   * result: those pieces would be filtered out anyway.
   */
  lemma ParseListIgnoresTrailingEmpties(s: string)
    ensures ParseList(s) == TrimmedEntries(Split(s, LIST_SEPARATOR))
  {
    if LIST_SEPARATOR !in s {
      SplitWithoutSeparator(s, LIST_SEPARATOR);
    } else {
      TrimmedEntriesDropTrailingEmpty(Split(s, LIST_SEPARATOR));
    }
  }

  /**
   * Rendering a list of entries as an attribute value and converting it back
   * appends exactly those entries.
   */
  lemma ConvertRenderedList(entries: seq<string>, list: seq<string>)
    requires forall i :: 0 <= i < |entries| ==> IsListEntry(entries[i])
    ensures ConvertToList(Some(Join(entries, LIST_SEPARATOR)), list) == list + entries
  {
    if entries == [] {
      assert list + entries == list;
    } else {
      var s := Join(entries, LIST_SEPARATOR);
      assert Present(Some(s));
      calc {
        ParseList(s);
        { ParseListIgnoresTrailingEmpties(s); }
        TrimmedEntries(Split(s, LIST_SEPARATOR));
        { SplitJoin(entries, LIST_SEPARATOR); }
        TrimmedEntries(entries);
        { TrimmedEntriesOfEntries(entries); }
        entries;
      }
    }
  }

  /** Parsing is canonical: rendering its entries and parsing again gives the same entries. */
  lemma ParseListCanonical(s: string)
    ensures ParseList(Join(ParseList(s), LIST_SEPARATOR)) == ParseList(s)
  {
    var entries := ParseList(s);
    if entries == [] {
      ParseListOfEmpty();
    } else {
      ConvertRenderedList(entries, []);
      assert [] + entries == entries;
    }
  }

  /** The empty string has no entries. */
  lemma ParseListOfEmpty()
    ensures ParseList([]) == []
  {
    assert JavaSplit([], LIST_SEPARATOR) == [[]];
    assert Trim([]) == [];
    assert EntryOf([]) == [];
  }

  /** Every setter keeps the configuration well formed. */
  lemma SettersPreserveWf(c: Config, s: Option<string>, b: Option<bool>)
    requires Wf(c)
    ensures Wf(SetTrustedAddresses(c, s))
    ensures Wf(SetUserId(c, s))
    ensures Wf(SetPassword(c, s))
    ensures Wf(SetLoggingEnabled(c, b))
  {
  }

  /** Of two `setUserId` calls the last one with a present value decides. */
  lemma LastUserIdWins(c: Config, first: Option<string>, second: Option<string>)
    ensures SetUserId(SetUserId(c, first), second).userId
         == (if Present(second) then second else if Present(first) then first else c.userId)
  {
  }

  /** Of two `setPassword` calls the last one with a present value decides. */
  lemma LastPasswordWins(c: Config, first: Option<string>, second: Option<string>)
    ensures SetPassword(SetPassword(c, first), second).password
         == (if Present(second) then second else if Present(first) then first else c.password)
  {
  }

  /**
   * Unlike the other setters, `setTrustedAddresses` accumulates: a second call
   * appends to what the first one left rather than replacing it.
   */
  lemma TrustedAddressesAccumulate(c: Config, first: string, second: string)
    ensures SetTrustedAddresses(SetTrustedAddresses(c, Some(first)), Some(second)).trustedAddresses
         == c.trustedAddresses + ParseList(first) + ParseList(second)
  {
  }
}
