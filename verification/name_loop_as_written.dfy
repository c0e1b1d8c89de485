/** The object-name loop of the decoder exactly as written: it reads one character per pass and
    appends it to the name until the character read is NUL, without looking at whether the read
    succeeded. A failed read at the end of the file leaves the character variable as it was, so
    a name that runs to the end of the file without a NUL is never finished. */
module NameLoopAsWritten {
  import opened LittleEndian
  import opened Results
  import opened SeqFacts
  import opened Payloads
  import opened Decoder

  /** Where the loop stands after the passes it was given: finished with the name (NUL
      included) and the cursor after it, or still running with the name gathered so far. */
  datatype NameLoopState =
    | Finished(name: seq<Byte>, next: nat)
    | Running(name: seq<Byte>, pos: nat)

  /** One pass reads the byte at `pos` if there is one and otherwise keeps `nextChar`, appends
      it to `name`, and stops if it is NUL; `passes` more passes are allowed after this one.
      `nextChar` is the character variable before the pass (indeterminate on the first pass). */
  function NameLoop(bytes: seq<Byte>, pos: nat, nextChar: Byte, name: seq<Byte>, passes: nat)
    : (r: NameLoopState)
    decreases passes
    ensures r.Running? ==> |r.name| == |name| + passes + 1
    ensures r.Finished? ==> |name| < |r.name| <= |name| + passes + 1 && r.name[|r.name| - 1] == 0
  {
    var c := if pos < |bytes| then bytes[pos] else nextChar;
    var p := if pos < |bytes| then pos + 1 else pos;
    var n := name + [c];
    if c == 0 then Finished(n, p)
    else if passes == 0 then Running(n, p)
    else NameLoop(bytes, p, c, n, passes - 1)
  }

  /** As written: once the rest of the file holds no NUL, and the character variable is not NUL
      either when the file is already exhausted, no number of passes finishes the name; the
      name only keeps growing by one byte per pass. */
  lemma {:induction false} NameLoopNeverFinishes(bytes: seq<Byte>, pos: nat, nextChar: Byte,
                                                 name: seq<Byte>, passes: nat)
    requires pos <= |bytes|
    requires NulFree(bytes[pos..])
    requires pos < |bytes| || nextChar != 0
    ensures NameLoop(bytes, pos, nextChar, name, passes).Running?
    decreases passes
  {
    var c := if pos < |bytes| then bytes[pos] else nextChar;
    var p := if pos < |bytes| then pos + 1 else pos;
    if pos < |bytes| {
      assert bytes[pos..][1..] == bytes[p..];
    }
    if passes > 0 {
      NameLoopNeverFinishes(bytes, p, c, name + [c], passes - 1);
    }
  }

  /** Where a NUL does follow, the loop as written agrees with `ReadName` once it is given
      enough passes: same name, NUL included, same cursor. */
  lemma {:induction false} NameLoopAgreesWithReadName(bytes: seq<Byte>, pos: nat, nextChar: Byte,
                                                      name: seq<Byte>, passes: nat)
    requires ReadName(bytes, pos).Ok?
    requires |ReadName(bytes, pos).value.0| <= passes + 1
    ensures NameLoop(bytes, pos, nextChar, name, passes) ==
            Finished(name + ReadName(bytes, pos).value.0, ReadName(bytes, pos).value.1)
    decreases passes
  {
    var c := bytes[pos];
    if c == 0 {
      assert ReadName(bytes, pos) == Ok(([c], pos + 1)) by {
        assert bytes[pos..pos + 1] == [c];
      }
      assert NameLoop(bytes, pos, nextChar, name, passes) == Finished(name + [c], pos + 1);
    } else {
      var rest := ReadName(bytes, pos + 1).value;
      ReadNameStep(bytes, pos);
      NameLoopStep(bytes, pos, nextChar, name, passes);
      NameLoopAgreesWithReadName(bytes, pos + 1, c, name + [c], passes - 1);
      AppendOne(name, c, rest.0);
      assert NameLoop(bytes, pos, nextChar, name, passes) == Finished(name + ([c] + rest.0), rest.1);
    }
  }

  /** A name that does not start with NUL is its first byte followed by the name after it. */
  lemma ReadNameStep(bytes: seq<Byte>, pos: nat)
    requires pos < |bytes| && bytes[pos] != 0
    requires ReadName(bytes, pos + 1).Ok?
    ensures ReadName(bytes, pos) ==
            Ok(([bytes[pos]] + ReadName(bytes, pos + 1).value.0, ReadName(bytes, pos + 1).value.1))
  {
    assert bytes[pos..pos + 1] == [bytes[pos]];
  }

  /** A pass that reads a byte other than NUL leaves the rest of the work to the next pass. */
  lemma NameLoopStep(bytes: seq<Byte>, pos: nat, nextChar: Byte, name: seq<Byte>, passes: nat)
    requires pos < |bytes| && bytes[pos] != 0 && passes > 0
    ensures NameLoop(bytes, pos, nextChar, name, passes) ==
            NameLoop(bytes, pos + 1, bytes[pos], name + [bytes[pos]], passes - 1)
  {
  }

  /** The file `00 40 07 00 00 00 41`: an OBJECT BLOCK header followed by the name byte `A` and
      then the end of the file. */
  const UnterminatedName: seq<Byte> := [0x00, 0x40, 0x07, 0x00, 0x00, 0x00, 0x41]

  /** As written, the name loop on that file never finishes, whatever the number of passes. */
  lemma UnterminatedNameRunsForever(passes: nat)
    ensures NameLoop(UnterminatedName, 6, 0, [], passes).Running?
  {
    assert UnterminatedName[6..] == [0x41];
    assert NulFree(UnterminatedName[6..][1..]);
    NameLoopNeverFinishes(UnterminatedName, 6, 0, [], passes);
  }

  /** Corrected: the model's decoder reports that file as truncated at its end. */
  lemma UnterminatedNameIsTruncated()
    ensures ReadName(UnterminatedName, 6) == Err(Truncated(7))
    ensures Decode(UnterminatedName) == Err(Truncated(7))
  {
    assert UnterminatedName[6..] == [0x41];
    assert NulFree(UnterminatedName[6..][1..]);
  }
}
