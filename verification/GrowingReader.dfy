/** read_filepointer: plugin output is read piece by piece into a buffer that grows. */
module GrowingReader {
  import opened CString

  /** What fgets(buffer, sizeof(buffer) - 1, ...) returns: up to a newline, or as much as fits. */
  function Piece(s: string): (n: nat)
    requires s != ""
    ensures 0 < n <= |s| && n <= GM_BUFFERSIZE - 2 && '\n' !in s[..n - 1]
    ensures s[n - 1] == '\n' || n == |s| || n == GM_BUFFERSIZE - 2
  {
    var n := TokenEnd(s, '\n');
    var line := if n < |s| then n + 1 else n;
    if line <= GM_BUFFERSIZE - 2 then line else GM_BUFFERSIZE - 2
  }

  /** What strlen and strncat see of a piece: a NUL hides the rest of it. */
  function Text(s: string): (t: string)
    requires s != ""
    ensures NUL !in t && |t| <= Piece(s)
    ensures NUL !in s ==> t == s[..Piece(s)]
  {
    NoNul(s[..Piece(s)]);
    CStr(s[..Piece(s)])
  }

  lemma {:induction false} NoNul(s: string)
    ensures NUL !in s ==> CStr(s) == s
  {
    if s != "" { NoNul(s[1..]); }
  }

  /** What is kept of the input when `size` has been counted so far. */
  function Kept(size: nat, s: string): string
    decreases |s|
  {
    if s == "" || size >= GM_MAX_OUTPUT then "" else Text(s) + Kept(size + |Text(s)|, s[Piece(s)..])
  }

  /** The length of the last piece. */
  function LastPiece(s: string): nat
    decreases |s|
  {
    if s == "" then 0 else if Piece(s) == |s| then |s| else LastPiece(s[Piece(s)..])
  }

  /** What is kept stays below the limit although `size` starts with an offset. Without a NUL it is a
      beginning of the input. It is all of the input if and only if there is no NUL and the count stays
      below the limit up to the last piece. */
  lemma {:induction false} KeptBeginning(size: nat, s: string)
    requires size >= GM_BUFFERSIZE
    ensures NUL !in Kept(size, s) && (NUL !in s ==> Kept(size, s) <= s)
    ensures size < GM_MAX_OUTPUT ==> size - GM_BUFFERSIZE + |Kept(size, s)| < GM_MAX_OUTPUT
    ensures Kept(size, s) == s <==> NUL !in s && (s == "" || size + |s| - LastPiece(s) < GM_MAX_OUTPUT)
    decreases |s|
  {
    hide Piece, Text;
    LastPieceLength(s);
    if s != "" && size < GM_MAX_OUTPUT {
      var n, t := Piece(s), Text(s);
      KeptBeginning(size + |t|, s[n..]);
      assert s == s[..n] + s[n..];
    }
  }

  lemma {:induction false} LastPieceLength(s: string)
    ensures LastPiece(s) <= |s|
    decreases |s|
  {
    if s != "" && Piece(s) != |s| { LastPieceLength(s[Piece(s)..]); }
  }

  /** realloc to a larger size keeps the string. */
  method Grow(target: array<char>, size: nat, ghost n: nat) returns (result: array<char>)
    requires n < target.Length && n < size
    ensures fresh(result) && result.Length == size && result[..n + 1] == target[..n + 1]
  {
    result := new char[size];
    forall i | 0 <= i < size && i < target.Length { result[i] := target[i]; }
  }

  method Append(target: array<char>, n: nat, bytes: string)
    requires n + |bytes| < target.Length && NUL !in target[..n] && NUL !in bytes
    modifies target
    ensures target[..n + |bytes|] == old(target[..n]) + bytes && target[n + |bytes|] == NUL
  {
    Copy(target, n, bytes);
    target[n + |bytes|] := NUL;
  }

  /** One piece is stored; one step of growth is always enough for it. */
  method Store(target: array<char>, n: nat, total: nat, bytes: string) returns (target': array<char>, total': nat)
    requires n + GM_BUFFERSIZE <= total <= target.Length && |bytes| <= GM_BUFFERSIZE - 2
    requires target[n] == NUL && NUL !in target[..n] && NUL !in bytes
    modifies target
    ensures target' == target || fresh(target')
    ensures n + |bytes| + GM_BUFFERSIZE <= total' <= target'.Length
    ensures target'[..n + |bytes|] == old(target[..n]) + bytes && target'[n + |bytes|] == NUL
  {
    target', total' := target, total;
    if total < |bytes| + (n + GM_BUFFERSIZE) {
      target' := Grow(target, total + GM_BUFFERSIZE, n);
      total' := total + GM_BUFFERSIZE;
      assert target'[..n] == target'[..n + 1][..n] == target[..n + 1][..n] == target[..n];
    }
    Append(target', n, bytes);
  }

  /** The input behind the limit is read and thrown away. */
  method SkipRest(input: string, from: nat) returns (pos: nat)
    requires from <= |input|
    ensures pos == |input|
  {
    hide Piece;
    pos := from;
    while pos < |input|
      invariant pos <= |input|
    {
      pos := pos + Piece(input[pos..]);
    }
  }

  /** read_filepointer into a buffer that holds an empty string. */
  method ReadFilepointer(buffer: array<char>, input: string) returns (target: array<char>, size: nat)
    requires buffer.Length >= GM_BUFFERSIZE && buffer[0] == NUL
    modifies buffer
    ensures CStr(target[..]) == Kept(GM_BUFFERSIZE, input)
    ensures size == GM_BUFFERSIZE + |CStr(target[..])|
  {
    hide Kept, Piece, Text, CStr;
    target := buffer;
    size := GM_BUFFERSIZE;
    var total: nat := size;
    var pos: nat := 0;
    ghost var all, stored := Kept(GM_BUFFERSIZE, input), "";
    assert input[0..] == input && stored + all == all;
    while pos < |input|
      invariant pos <= |input| && size == GM_BUFFERSIZE + |stored| <= total <= target.Length
      invariant target == buffer || fresh(target)
      invariant target[|stored|] == NUL && NUL !in stored && target[..|stored|] == stored
      invariant stored + Kept(size, input[pos..]) == all
      decreases |input| - pos
    {
      if size >= GM_MAX_OUTPUT {
        NothingKept(size, input[pos..]);
        pos := SkipRest(input, pos);
        NothingKept(size, input[pos..]);
      } else {
        var bytes := Text(input[pos..]);
        KeptNext(stored, size, input, pos);
        target, total := Store(target, size - GM_BUFFERSIZE, total, bytes);
        stored, size, pos := stored + bytes, size + |bytes|, pos + Piece(input[pos..]);
      }
    }
    NothingKept(size, input[pos..]);
    assert all + "" == all && stored + "" == stored;
    assert target[..][..|stored|] == stored;
    CStrTo(target[..], |stored|);
  }

  /** What has been stored and what will be kept stay the same together. */
  lemma KeptNext(stored: string, size: nat, input: string, pos: nat)
    requires pos < |input| && size < GM_MAX_OUTPUT
    ensures var rest := input[pos..];
            stored + Kept(size, rest) == stored + Text(rest) + Kept(size + |Text(rest)|, input[pos + Piece(rest)..])
  {
    hide Kept, Piece, Text;
    var rest := input[pos..];
    var n, t := Piece(rest), Text(rest);
    KeptStep(size, rest);
    assert rest[n..] == input[pos + n..];
    assert stored + (t + Kept(size + |t|, rest[n..])) == stored + t + Kept(size + |t|, rest[n..]);
  }

  lemma KeptStep(size: nat, s: string)
    requires s != ""
    ensures Kept(size, s) == if size >= GM_MAX_OUTPUT then "" else Text(s) + Kept(size + |Text(s)|, s[Piece(s)..])
  {
  }

  lemma NothingKept(size: nat, s: string)
    requires s == "" || size >= GM_MAX_OUTPUT
    ensures Kept(size, s) == ""
  {
  }
}
