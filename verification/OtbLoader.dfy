/** src/fileloader.cpp: the loader of OTB files, with its explicit parse stack and its run-copying unescaper. */
module OtbLoader {
  import opened Bytes
  import opened Options
  import opened OtbFormat

  /** Opening a file: null stands for the InvalidOTBFormat the constructor throws. */
  method Open(file: seq<Byte>, accepted: seq<Byte>) returns (loader: Loader?)
    requires |accepted| == IDENTIFIER_SIZE
    ensures loader == null <==> !Opens(file, accepted)
    ensures loader != null ==> fresh(loader) && loader.fileContents == file
  {
    if |file| <= MINIMAL_SIZE {
      return null;
    }
    var identifier := file[..IDENTIFIER_SIZE];
    if identifier != accepted && identifier != [0, 0, 0, 0] {
      return null;
    }
    loader := new Loader(file);
  }

  class Loader {
    const fileContents: seq<Byte>
    var propBuffer: array<Byte>

    constructor (file: seq<Byte>)
      ensures fileContents == file
    {
      fileContents := file;
      propBuffer := new Byte[0];
    }

    /** Loader::parseTree */
    method ParseTree() returns (r: ParseResult)
      requires |fileContents| > MINIMAL_SIZE
      ensures forall accepted | |accepted| == IDENTIFIER_SIZE && Opens(fileContents, accepted) ::
                r == Load(fileContents, accepted)
    {
      var s := fileContents;
      var it := IDENTIFIER_SIZE;
      if s[it] != START {
        return InvalidOTBFormat;
      }
      var parseStack := [Frame(s[it + 1], it + 2, None, [])];
      var root: Option<Node> := None;
      it := it + 2;
      while it != |s|
        invariant 6 <= it <= |s| && (parseStack == [] ==> root.Some?)
        invariant Run(s, it, parseStack, root) == Run(s, 6, [Frame(s[5], 6, None, [])], None)
        decreases |s| - it
      {
        if s[it] == START {
          if parseStack == [] || it + 1 == |s| {
            return InvalidOTBFormat;
          }
          parseStack := Mark(parseStack, it) + [Frame(s[it + 1], it + 2, None, [])];
          it := it + 1;
        } else if s[it] == END {
          if parseStack == [] {
            return InvalidOTBFormat;
          }
          var closed;
          parseStack, closed := PopFrame(parseStack, it);
          root := if closed.Some? then closed else root;
        } else if s[it] == ESCAPE {
          it := it + 1;
          if it == |s| {
            return InvalidOTBFormat;
          }
        }
        it := it + 1;
      }
      r := if parseStack == [] then Parsed(root.value) else InvalidOTBFormat;
    }

    method PopFrame(stack: seq<Frame>, at: nat) returns (below: seq<Frame>, closed: Option<Node>)
      requires stack != []
      ensures (below, closed) == Pop(stack, at)
    {
      var result := Pop(stack, at);
      below, closed := result.0, result.1;
    }

    /** memchr for the escape byte between from and to; to when there is none. */
    method FindEscape(from: nat, to: nat) returns (at: nat)
      requires from <= to <= |fileContents|
      ensures from <= at <= to && ESCAPE !in fileContents[from..at]
      ensures at < to ==> fileContents[at] == ESCAPE
    {
      at := from;
      while at < to && fileContents[at] != ESCAPE
        invariant from <= at <= to && ESCAPE !in fileContents[from..at]
      {
        at := at + 1;
      }
    }

    /** std::copy of the file bytes from .. to into the buffer at dst. */
    method CopyRun(buffer: array<Byte>, dst: nat, from: nat, to: nat) returns (dst': nat)
      requires from <= to <= |fileContents| && dst + (to - from) <= buffer.Length
      modifies buffer
      ensures dst' == dst + (to - from)
      ensures buffer[..dst'] == old(buffer[..dst]) + fileContents[from..to]
    {
      dst' := dst;
      var src := from;
      while src < to
        invariant from <= src <= to && dst' == dst + (src - from)
        invariant buffer[..dst'] == old(buffer[..dst]) + fileContents[from..src]
      {
        buffer[dst'] := fileContents[src];
        dst', src := dst' + 1, src + 1;
      }
    }

    /** A clean run and the byte behind the escape that ends it; a trailing lone escape leaves nothing behind. */
    method CopySegment(buffer: array<Byte>, dst: nat, src: nat, esc: nat, end: nat) returns (dst': nat, src': nat)
      requires src <= esc < end <= |fileContents| && dst + (end - src) <= buffer.Length
      requires fileContents[esc] == ESCAPE && ESCAPE !in fileContents[src..esc]
      modifies buffer
      ensures esc < src' <= end && dst' + (end - src') <= dst + (end - src)
      ensures buffer[..dst'] + Unescape(fileContents[src'..end]) ==
              old(buffer[..dst]) + Unescape(fileContents[src..end])
    {
      SplitRun(fileContents, src, esc, end);
      ghost var before, run := buffer[..dst], fileContents[src..esc];
      dst' := CopyRun(buffer, dst, src, esc);
      src' := esc + 1;
      if src' == end {
        assert fileContents[src'..end] == [];
        return;
      }
      var b := fileContents[src'];
      ghost var rest := Unescape(fileContents[src' + 1..end]);
      buffer[dst'] := b;
      dst', src' := dst' + 1, src' + 1;
      assert buffer[..dst'] == (before + run) + [b];
      assert ((before + run) + [b]) + rest == before + (run + ([b] + rest));
    }

    /**
     * Loader::getProps: false for an empty range; otherwise the unescaped bytes, copied run by run into a buffer
     * of the size of the range when the range holds an escape.
     */
    method GetProps(node: Node) returns (ok: bool, props: seq<Byte>)
      requires node.begin <= node.end <= |fileContents|
      modifies this`propBuffer
      ensures ok <==> node.begin != node.end
      ensures ok ==> props == Unescape(fileContents[node.begin..node.end])
    {
      var begin, end := node.begin, node.end;
      if begin == end {
        return false, [];
      }
      ghost var range := fileContents[begin..end];
      var esc := FindEscape(begin, end);
      if esc == end {
        UnescapePlain(range);
        return true, fileContents[begin..end];
      }
      var buffer := new Byte[end - begin](_ => 0);
      propBuffer := buffer;
      var src, dst := begin, 0;
      while true
        invariant begin <= src <= esc < end && fileContents[esc] == ESCAPE && ESCAPE !in fileContents[src..esc]
        invariant 0 <= dst <= src - begin
        invariant buffer[..dst] + Unescape(fileContents[src..end]) == Unescape(range)
        decreases end - src
      {
        dst, src := CopySegment(buffer, dst, src, esc, end);
        if src == end {
          break;
        }
        if fileContents[src] == ESCAPE {
          esc := src;
          continue;
        }
        esc := FindEscape(src + 1, end);
        assert fileContents[src..esc] == [fileContents[src]] + fileContents[src + 1..esc];
        if esc == end {
          UnescapePlain(fileContents[src..end]);
          dst := CopyRun(buffer, dst, src, end);
          src := end;
          break;
        }
      }
      assert Unescape(fileContents[end..end]) == [];
      ok, props := true, buffer[..dst];
    }
  }

  /** A clean run, an escape and the byte behind it. */
  lemma SplitRun(s: seq<Byte>, src: nat, esc: nat, end: nat)
    requires src <= esc < end <= |s| && s[esc] == ESCAPE && ESCAPE !in s[src..esc]
    ensures Unescape(s[src..end])
            == s[src..esc] + (if esc + 1 == end then [] else [s[esc + 1]] + Unescape(s[esc + 2..end]))
  {
    var rest := s[esc..end];
    assert s[src..end] == s[src..esc] + rest;
    UnescapeRun(s[src..esc], rest);
    if esc + 1 < end {
      assert rest[2..] == s[esc + 2..end];
    }
  }
}
