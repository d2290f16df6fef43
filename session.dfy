/** The per-session store (`st.session_state`) with its two slots: the
    ledger `master_db` and the pending scan `current_scan`. */
module SessionStore {
  import opened Wrappers
  import opened Records
  import opened Distinct
  import opened Ledger
  import opened Extraction

  class Session {
    /** `master_db`; None while the key is absent, between a hard reset and
        the initialisation at the top of the next run. */
    var ledger: Option<seq<LedgerRow>>
    /** `current_scan`; None when the key is absent or holds None, which
        line 88 treats alike. */
    var pending: Option<seq<LedgerRow>>

    /** Every ledger the app builds is duplicate-free. */
    ghost predicate Valid()
      reads this
    {
      ledger.Some? ==> NoDups(ledger.value)
    }

    /** A new session: an empty store. */
    constructor ()
      ensures Valid() && ledger == None && pending == None
    {
      ledger := None;
      pending := None;
    }

    /** Lines 30-31: create the empty ledger if there is none. */
    method Initialize()
      requires Valid()
      modifies this
      ensures Valid()
      ensures ledger == if old(ledger).None? then Some([]) else old(ledger)
      ensures pending == old(pending)
    {
      if ledger.None? {
        ledger := Some([]);
      }
    }

    /** Line 86: the extraction result replaces the pending scan, even when
        it is the failure None. `setupRaised` says that `genai.configure` or
        `GenerativeModel` (lines 40-41, outside the `try`) raised: the
        exception ends the script run before line 86 assigns, so the pending
        scan stays as it was. The ledger is never touched. */
    method Scan(apiKey: Option<string>, setupRaised: bool, reply: Option<string>,
                parseJson: string -> Option<seq<Row<string>>>,
                toDateTime: string -> Option<DateTime>, now: string)
      requires Valid()
      modifies this
      ensures Valid()
      ensures pending == if KeySet(apiKey) && setupRaised then old(pending)
                         else Extract(apiKey, reply, parseJson, toDateTime, now)
      ensures ledger == old(ledger)
    {
      if !(KeySet(apiKey) && setupRaised) {
        pending := Extract(apiKey, reply, parseJson, toDateTime, now);
      }
    }

    /** Lines 97-100: commit the corrected table and drop the pending scan.
        The Save button is only shown while a scan is pending, after the
        ledger has been initialised. The old ledger stays as a prefix. */
    method Save(edited: seq<LedgerRow>)
      requires Valid() && ledger.Some? && pending.Some?
      modifies this
      ensures Valid()
      ensures ledger == Some(Merge(old(ledger).value, edited))
      ensures old(ledger).value <= ledger.value
      ensures pending == None
    {
      MergeKeepsLedger(ledger.value, edited);
      ledger := Some(Merge(ledger.value, edited));
      pending := None;
    }

    /** Line 23: `st.session_state.clear()` empties both slots. */
    method Reset()
      modifies this
      ensures Valid() && ledger == None && pending == None
    {
      ledger := None;
      pending := None;
    }
  }

  /** The Hard Reset button: clear the store, then rerun the script, whose
      first step re-creates the ledger. The session ends up empty. */
  method HardResetAndRerun(s: Session)
    modifies s
    ensures s.Valid() && s.ledger == Some([]) && s.pending == None
  {
    s.Reset();
    s.Initialize();
  }
}
