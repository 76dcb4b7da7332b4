/** Writing and reading variable-length integers on the byte buffer. */
module VarIntCode {
  import opened ByteBuffer
  import opened VarInt

  /** Stores the form without a sign; the first store of each form makes room for all of it. */
  method WritePlain(buffer: Buffer, value: word) returns (n: nat)
    requires buffer.Valid()
    modifies buffer, buffer.data
    ensures buffer.Valid() && n == |EncodePlain(value)|
    ensures buffer.Meaning() == Apply(old(buffer.Meaning()), Write(EncodePlain(value)))
    ensures buffer.Books() == Charge(old(buffer.Books()), old(buffer.Meaning()), Write(EncodePlain(value)))
    ensures buffer.data == old(buffer.data) || fresh(buffer.data)
  {
    hide ByteAt;
    hide Tagged;
    if value < 0x80 {
      n := buffer.WriteByte(ByteAt(value, 0));
    } else if value < 0x4000 {
      n := buffer.WriteBytes([Tagged(ByteAt(value, 1), 0x80), ByteAt(value, 0)]);
    } else if value < 0x20_0000 {
      n := buffer.WriteBytes([Tagged(ByteAt(value, 2), 0xC0), ByteAt(value, 1), ByteAt(value, 0)]);
    } else if value < 0x1000_0000 {
      n := buffer.WriteBytes([Tagged(ByteAt(value, 3), 0xE0), ByteAt(value, 2), ByteAt(value, 1), ByteAt(value, 0)]);
    } else if value < 0x1_0000_0000 {
      n := buffer.WriteBytes([0xF0, ByteAt(value, 3), ByteAt(value, 2), ByteAt(value, 1), ByteAt(value, 0)]);
    } else {
      n := buffer.WriteBytes([0xF4, ByteAt(value, 7), ByteAt(value, 6), ByteAt(value, 5), ByteAt(value, 4),
                              ByteAt(value, 3), ByteAt(value, 2), ByteAt(value, 1), ByteAt(value, 0)]);
    }
  }

  /** The writes that a value takes: a negating prefix makes room for itself first. */
  function WritesOf(value: word): seq<Op> {
    if IsNegative(value) && Complement(value) > 3 then [Write([0xF8]), Write(EncodePlain(Complement(value)))]
    else [Write(Encode(value))]
  }

  lemma BillOfOne(a: Account, v: View, op: Op)
    requires v.Ok()
    ensures Bill(a, v, [op]) == Charge(a, v, op)
  {
    assert [op][1..] == [];
    assert Bill(Charge(a, v, op), Apply(v, op), []) == Charge(a, v, op);
  }

  lemma BillOfTwo(a: Account, v: View, o: Op, p: Op)
    requires v.Ok()
    ensures Bill(a, v, [o, p]) == Charge(Charge(a, v, o), Apply(v, o), p)
  {
    assert [o, p][1..] == [p];
    BillOfOne(Charge(a, v, o), Apply(v, o), p);
  }

  method WriteVarInt(buffer: Buffer, value: word) returns (n: nat)
    requires buffer.Valid()
    modifies buffer, buffer.data
    ensures buffer.Valid() && n == |Encode(value)|
    ensures buffer.Meaning() == Apply(old(buffer.Meaning()), Write(Encode(value)))
    ensures buffer.Books() == Bill(old(buffer.Books()), old(buffer.Meaning()), WritesOf(value))
    ensures buffer.data == old(buffer.data) || fresh(buffer.data)
  {
    hide EncodePlain;
    hide ByteAt;
    hide Tagged;
    hide Charge;
    hide Bill;
    ghost var a, v := buffer.Books(), buffer.Meaning();
    BillOfOne(a, v, Write(Encode(value)));
    if value & 0x8000_0000_0000_0000 != 0 && Complement(value) < 0x1_0000_0000 {
      var w := Complement(value);
      if w <= 0x3 {
        n := buffer.WriteByte(Tagged(ByteAt(w, 0), 0xFC));
      } else {
        BillOfTwo(a, v, Write([0xF8]), Write(EncodePlain(w)));
        var flag := buffer.WriteByte(0xF8);
        n := WritePlain(buffer, w);
        n := n + flag;
        assert v.bytes + [0xF8] + EncodePlain(w) == v.bytes + ([0xF8] + EncodePlain(w));
      }
    } else {
      n := WritePlain(buffer, value);
    }
  }

  /**
   * Reads one value, with the negations in front of it, as far as the bytes go; the read head
   * moves over what was taken even when the value turns out to be cut short.
   */
  method ReadVarInt(buffer: Buffer) returns (n: nat, output: word)
    requires buffer.Valid() && buffer.writeHead < SIZE_LIMIT
    modifies buffer`readHead
    ensures buffer.Valid()
    ensures var v := old(buffer.Meaning());
            var d := Decode(v.Unread());
            n == d.size && output == d.value && buffer.Meaning() == View(v.bytes, v.pos + d.used)
    decreases buffer.writeHead - buffer.readHead
  {
    hide FormOf;
    hide Assemble;
    hide Complement;
    output := 0;
    ghost var v := buffer.Meaning();
    ghost var s := v.Unread();
    var one, b := buffer.ReadByte();
    if one == 0 {
      return 0, output;
    }
    assert [b] == Delivered(v, 1) == v.bytes[v.pos..v.pos + 1];
    assert b == v.bytes[v.pos..v.pos + 1][0] == s[0];
    var f := FormOf(b);
    if f.Negated? {
      if buffer.readHead + 1 > buffer.writeHead {
        return 0, output;
      }
      assert buffer.Meaning().Unread() == s[1..];
      n, output := ReadVarInt(buffer);
      return n, Complement(output);
    }
    if buffer.readHead + Following(f) > buffer.writeHead {
      return 0, output;
    }
    var got, c, _ := buffer.ReadBytes(Following(f));
    assert c == s[1..1 + Following(f)];
    return 1 + Following(f), Assemble(f, b, c);
  }
}
