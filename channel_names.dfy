/** The payload of a channel-names chunk: labels packed back to back, each
    ended by a zero byte.

    `Entries(s)` is the list of terminated entries of `s` (an empty entry for
    two zero bytes in a row), `Pending(s)` the run of non-zero bytes after the
    last terminator, which no terminator completes. `Join` packs entries back
    into a payload; the lemmas show that `Entries`/`Pending` and `Join` are
    inverse to each other, so `Entries` is the one way to cut a payload into
    zero-terminated pieces. `ApplyNames` states what the decoder does with
    the entries: entry k becomes the label of channel k unless it is empty or
    there is no channel k. */
module ChannelNames {
  import opened Wire

  datatype Option<T> = None | Some(value: T)

  /** A channel label as the raw bytes of its name; `None` is Java's `null`. */
  type Label = seq<byte>
  type Labels = seq<Option<Label>>

  /** The run of non-zero bytes at the end of `s`: the longest suffix without a zero byte. */
  function Pending(s: seq<byte>): (r: seq<byte>)
    ensures |r| <= |s| && 0 !in r
    ensures |r| < |s| ==> s[|s| - |r| - 1] == 0
  {
    if s == [] || s[|s| - 1] == 0 then []
    else Pending(s[..|s| - 1]) + [s[|s| - 1]]
  }

  /** The zero-terminated entries of `s`, in order; one per zero byte of `s`. */
  function Entries(s: seq<byte>): (r: seq<Label>)
    ensures ZeroFree(r)
  {
    if s == [] then []
    else if s[|s| - 1] == 0 then Entries(s[..|s| - 1]) + [Pending(s[..|s| - 1])]
      else Entries(s[..|s| - 1])
  }

  /** The payload that packs `es`, each entry followed by a zero byte. */
  function Join(es: seq<Label>): (s: seq<byte>)
  {
    if es == [] then [] else Join(es[..|es| - 1]) + es[|es| - 1] + [0]
  }

  predicate ZeroFree(es: seq<Label>)
  {
    forall k :: 0 <= k < |es| ==> 0 !in es[k]
  }

  /** The labels after one channel-names payload with entries `es` is
      applied to `labels`, entry by entry: a non-empty entry k sets slot k
      when there is one. */
  function ApplyNames(labels: Labels, es: seq<Label>): (r: Labels)
    ensures |r| == |labels|
  {
    if es == [] then labels
    else
      var k, e := |es| - 1, es[|es| - 1];
      var r := ApplyNames(labels, es[..k]);
      if e != [] && k < |r| then r[k := Some(e)] else r
  }

  /** The name scan can store every label it meets: a label array of length
      zero cannot hold a non-empty entry, and with zero channels the scan
      never stops early. */
  predicate NamesFit(s: seq<byte>, nChans: nat)
  {
    nChans > 0 || AllEmpty(Entries(s))
  }

  predicate AllEmpty(es: seq<Label>)
  {
    forall k :: 0 <= k < |es| ==> es[k] == []
  }

  /** How one more byte changes the entries and the pending run. */
  lemma EntriesSnoc(s: seq<byte>, b: byte)
    ensures Entries(s + [b]) == if b == 0 then Entries(s) + [Pending(s)] else Entries(s)
    ensures Pending(s + [b]) == if b == 0 then [] else Pending(s) + [b]
  {
    assert (s + [b])[..|s|] == s;
  }

  /** The pending run is the tail of `s`. */
  lemma {:induction false} PendingSuffix(s: seq<byte>)
    ensures Pending(s) == s[|s| - |Pending(s)|..]
  {
    if s != [] && s[|s| - 1] != 0 {
      var init := s[..|s| - 1];
      PendingSuffix(init);
      assert s == init + [s[|s| - 1]];
      assert s[|s| - |Pending(s)|..] == init[|init| - |Pending(init)|..] + [s[|s| - 1]];
    }
  }

  /** There is one entry per zero byte. */
  lemma {:induction false} EntriesCount(s: seq<byte>)
    ensures |Entries(s)| == multiset(s)[0]
  {
    if s != [] {
      assert s == s[..|s| - 1] + [s[|s| - 1]];
      EntriesCount(s[..|s| - 1]);
    }
  }

  /** One step of a left-to-right scan: byte `pos` extends the scanned prefix. */
  lemma ScanStep(s: seq<byte>, pos: nat)
    requires pos < |s|
    ensures Entries(s[..pos + 1]) ==
      if s[pos] == 0 then Entries(s[..pos]) + [Pending(s[..pos])] else Entries(s[..pos])
    ensures Pending(s[..pos + 1]) == if s[pos] == 0 then [] else Pending(s[..pos]) + [s[pos]]
    ensures s[pos - |Pending(s[..pos])|..pos] == Pending(s[..pos])
  {
    assert s[..pos + 1] == s[..pos] + [s[pos]];
    EntriesSnoc(s[..pos], s[pos]);
    PendingSuffix(s[..pos]);
    assert s[..pos][pos - |Pending(s[..pos])|..] == s[pos - |Pending(s[..pos])|..pos];
  }

  /** The entries of a prefix are a prefix of the entries. */
  lemma {:induction false} EntriesPrefix(s: seq<byte>, p: nat)
    requires p <= |s|
    ensures Entries(s[..p]) <= Entries(s)
    decreases |s| - p
  {
    if p < |s| {
      assert s[..p + 1] == s[..p] + [s[p]];
      EntriesSnoc(s[..p], s[p]);
      EntriesPrefix(s, p + 1);
      assert s[..p + 1][..p] == s[..p];
    } else {
      assert s[..p] == s;
    }
  }

  /** Packing the entries and appending the pending run rebuilds the payload. */
  lemma {:induction false} JoinEntries(s: seq<byte>)
    ensures Join(Entries(s)) + Pending(s) == s
  {
    if s != [] {
      var init, b := s[..|s| - 1], s[|s| - 1];
      assert s == init + [b];
      JoinEntries(init);
      EntriesSnoc(init, b);
      var es, p := Entries(init), Pending(init);
      if b == 0 {
        JoinSnoc(es, p);
        calc {
          Join(Entries(s)) + Pending(s);
          Join(es + [p]) + [];
          Join(es) + p + [0];
          init + [0];
        }
      } else {
        calc {
          Join(Entries(s)) + Pending(s);
          Join(es) + (p + [b]);
          (Join(es) + p) + [b];
          init + [b];
        }
      }
    }
  }

  lemma JoinSnoc(es: seq<Label>, e: Label)
    ensures Join(es + [e]) == Join(es) + e + [0]
  {
    assert (es + [e])[..|es|] == es;
  }

  /** Cutting a packed payload gives back the entries and the unterminated tail. */
  lemma {:induction false} EntriesJoin(es: seq<Label>, t: seq<byte>)
    requires ZeroFree(es) && 0 !in t
    ensures Entries(Join(es) + t) == es
    ensures Pending(Join(es) + t) == t
    decreases |Join(es) + t|
  {
    if t != [] {
      var t', b := t[..|t| - 1], t[|t| - 1];
      assert t == t' + [b];
      assert Join(es) + t == (Join(es) + t') + [b];
      EntriesJoin(es, t');
      EntriesSnoc(Join(es) + t', b);
    } else if es != [] {
      var es', e := es[..|es| - 1], es[|es| - 1];
      assert es == es' + [e];
      JoinSnoc(es', e);
      assert Join(es) + t == (Join(es') + e) + [0];
      assert ZeroFree(es') by {
        forall k | 0 <= k < |es'| ensures 0 !in es'[k] { assert es'[k] == es[k]; }
      }
      EntriesJoin(es', e);
      EntriesSnoc(Join(es') + e, 0);
    } else {
      assert Join(es) + t == [];
    }
  }

  /** The zero byte at `pos` ends entry number n, where n counts the zero
      bytes before `pos`; that entry is exactly the `len` bytes before `pos`,
      `len` being the length of the run the scan has counted. */
  lemma EntryAtTerminator(s: seq<byte>, pos: nat)
    requires pos < |s| && s[pos] == 0
    ensures var n, len := multiset(s[..pos])[0], |Pending(s[..pos])|;
      len <= pos && n < |Entries(s)| && Entries(s)[n] == s[pos - len..pos]
  {
    var len := |Pending(s[..pos])|;
    EntriesCount(s[..pos]);
    ScanStep(s, pos);
    EntriesPrefix(s, pos + 1);
  }

  /** Slot k holds entry k when that entry exists and is non-empty, and
      its old label otherwise. */
  lemma {:induction false} ApplyNamesAt(labels: Labels, es: seq<Label>, k: nat)
    requires k < |labels|
    ensures ApplyNames(labels, es)[k] == if k < |es| && es[k] != [] then Some(es[k]) else labels[k]
  {
    if es != [] {
      var init := es[..|es| - 1];
      ApplyNamesAt(labels, init, k);
    }
  }

  /** Entries past the last label slot change nothing. */
  lemma {:induction false} ApplyNamesPrefix(labels: Labels, es: seq<Label>, es': seq<Label>)
    requires es <= es' && |labels| <= |es|
    ensures ApplyNames(labels, es) == ApplyNames(labels, es')
    decreases |es'|
  {
    if |es| < |es'| {
      var init := es'[..|es'| - 1];
      assert es <= init;
      ApplyNamesPrefix(labels, es, init);
      assert |ApplyNames(labels, init)| <= |es'| - 1;
    } else {
      assert es == es';
    }
  }

  /** Appending one entry sets at most the slot with that entry's index. */
  lemma ApplyNamesSnoc(labels: Labels, es: seq<Label>, e: Label)
    ensures ApplyNames(labels, es + [e]) ==
      if e != [] && |es| < |labels| then ApplyNames(labels, es)[|es| := Some(e)]
      else ApplyNames(labels, es)
  {
    assert (es + [e])[..|es|] == es;
  }

  /** A slot the payload does not name keeps its label, and no slot is ever
      set to the empty name. */
  lemma ApplyNamesKeeps(labels: Labels, s: seq<byte>, k: nat)
    requires k < |labels|
    ensures k >= |Entries(s)| || Entries(s)[k] == [] ==> ApplyNames(labels, Entries(s))[k] == labels[k]
    ensures ApplyNames(labels, Entries(s))[k] != Some([]) || labels[k] == Some([])
  {
    ApplyNamesAt(labels, Entries(s), k);
  }

  /** Fewer terminators than channels: the channels from `multiset(s)[0]` on keep their labels. */
  lemma ShortPayloadKeepsTail(labels: Labels, s: seq<byte>, k: nat)
    requires multiset(s)[0] <= k < |labels|
    ensures ApplyNames(labels, Entries(s))[k] == labels[k]
  {
    EntriesCount(s);
    ApplyNamesAt(labels, Entries(s), k);
  }

  /** A run of `len` non-zero bytes that starts the payload or follows a
      zero byte is the pending run. */
  lemma {:induction false} PendingOfRun(s: seq<byte>, len: nat)
    requires len <= |s| && 0 !in s[|s| - len..] && (len == |s| || s[|s| - len - 1] == 0)
    ensures Pending(s) == s[|s| - len..]
    decreases len
  {
    if len > 0 {
      var init := s[..|s| - 1];
      assert s[|s| - len..] == init[|init| - (len - 1)..] + [s[|s| - 1]];
      assert s[|s| - 1] in s[|s| - len..];
      PendingOfRun(init, len - 1);
    }
  }

  /** The zero byte at `pos` that ends a run of `len > 0` non-zero bytes
      stores exactly that run in slot `n`, `n` being the number of zero
      bytes before `pos`; an empty run leaves slot `n` as it was. */
  lemma NameAtTerminator(labels: Labels, s: seq<byte>, pos: nat, len: nat)
    requires pos < |s| && s[pos] == 0 && multiset(s[..pos])[0] < |labels|
    requires len <= pos && 0 !in s[pos - len..pos] && (len == pos || s[pos - len - 1] == 0)
    ensures var n := multiset(s[..pos])[0];
      ApplyNames(labels, Entries(s))[n] == if len > 0 then Some(s[pos - len..pos]) else labels[n]
  {
    var n := multiset(s[..pos])[0];
    assert Pending(s[..pos]) == s[pos - len..pos] by {
      assert s[..pos][pos - len..] == s[pos - len..pos];
      PendingOfRun(s[..pos], len);
    }
    assert n < |Entries(s)| && Entries(s)[n] == s[pos - len..pos] by { EntryAtTerminator(s, pos); }
    ApplyNamesAt(labels, Entries(s), n);
  }

  /** Bytes after the last zero byte add no entry: an unterminated name is never stored. */
  lemma {:induction false} TrailingRunIgnored(s: seq<byte>, t: seq<byte>)
    requires 0 !in t
    ensures Entries(s + t) == Entries(s)
  {
    if t != [] {
      var t' := t[..|t| - 1];
      assert s + t == (s + t') + [t[|t| - 1]];
      assert t[|t| - 1] in t;
      TrailingRunIgnored(s, t');
      EntriesSnoc(s + t', t[|t| - 1]);
    } else {
      assert s + t == s;
    }
  }

  /** Once a payload prefix has as many terminators as there are slots,
      the bytes after it change no label. */
  lemma AfterLastSlotIgnored(labels: Labels, s: seq<byte>, t: seq<byte>)
    requires |labels| <= multiset(s)[0]
    ensures ApplyNames(labels, Entries(s + t)) == ApplyNames(labels, Entries(s))
  {
    EntriesCount(s);
    EntriesPrefix(s + t, |s|);
    assert (s + t)[..|s|] == s;
    ApplyNamesPrefix(labels, Entries(s), Entries(s + t));
  }
}
