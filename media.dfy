/** The media service (backend/src/modules/media/media.service.ts): the
    stored name and placeholder URL of an upload, and the asset table. The
    generated file id and row id are parameters; nothing is written to
    storage. */
module Media {
  import opened Common
  import opened Query
  import Text

  datatype MediaAsset = MediaAsset(
    id: Id,
    filename: string,
    url: string,
    mimeType: string,
    size: int,
    uploadedAt: Timestamp)

  /** What the multipart interceptor hands over. */
  datatype UploadedFile = UploadedFile(originalname: string, mimetype: string, size: int)

  function UploadedKey(a: MediaAsset): int {
    a.uploadedAt
  }

  /** `s` ends with `x`, which contains no `c` and is either all of `s` or
      preceded by a `c`: `x` is what follows the last `c`. */
  predicate IsLastPiece(s: string, x: string, c: char) {
    |x| <= |s| && s[|s| - |x|..] == x && c !in x && (|x| < |s| ==> s[|s| - |x| - 1] == c)
  }

  /** `originalname.split('.').pop()`. */
  function Extension(name: string): (ext: string)
    ensures IsLastPiece(name, ext, '.')
    ensures '.' !in name ==> ext == name
  {
    var pieces := Text.SplitOn(name, '.');
    LastPiece(name, '.');
    assert '.' !in name ==> pieces[|pieces| - 1] == name by {
      if '.' !in name {
        LastPieceWhole(name, '.');
      }
    }
    pieces[|pieces| - 1]
  }

  /** The last piece of `s.split(c)` is what follows the last `c` of
      `s`. */
  lemma LastPiece(s: string, c: char)
    ensures IsLastPiece(s, Text.SplitOn(s, c)[|Text.SplitOn(s, c)| - 1], c)
  {
    var r := Text.SplitOn(s, c);
    assert Text.JoinOn(r, c) == s by {
      Text.SplitOnJoin(s, c);
    }
    assert IsLastPiece(Text.JoinOn(r, c), r[|r| - 1], c) by {
      JoinLast(r, c);
    }
    LastPieceOfSame(Text.JoinOn(r, c), s, r[|r| - 1], c);
  }

  /** A text without `c` is its own last piece. */
  lemma LastPieceWhole(s: string, c: char)
    requires c !in s
    ensures Text.SplitOn(s, c)[|Text.SplitOn(s, c)| - 1] == s
  {
    Text.SplitOnNone(s, c);
  }

  lemma LastPieceOfSame(t: string, s: string, x: string, c: char)
    requires IsLastPiece(t, x, c) && t == s
    ensures IsLastPiece(s, x, c)
  {
  }

  /** Joining pieces without `c` by `c` leaves the last piece after the
      last `c`. */
  lemma {:induction false} JoinLast(pieces: seq<string>, c: char)
    requires |pieces| >= 1 && forall i :: 0 <= i < |pieces| ==> c !in pieces[i]
    ensures IsLastPiece(Text.JoinOn(pieces, c), pieces[|pieces| - 1], c)
  {
    if |pieces| == 1 {
      var p := pieces[0];
      assert p[|p| - |p|..] == p;
    } else {
      var rest := pieces[1..];
      var x := rest[|rest| - 1];
      var j := Text.JoinOn(rest, c);
      var s := pieces[0] + [c] + j;
      assert IsLastPiece(j, x, c) by {
        JoinLast(rest, c);
      }
      assert IsLastPiece(s, x, c) by {
        assert s[|pieces[0]| + 1..] == j;
        LastPieceExtend(s, |pieces[0]|, x, c);
      }
      LastPieceOfSame(s, Text.JoinOn(pieces, c), x, c);
    }
  }

  /** The piece after the last `c` of a tail that follows a `c` is also the
      piece after the last `c` of the whole text. */
  lemma LastPieceExtend(s: string, k: nat, x: string, c: char)
    requires k < |s| && s[k] == c && IsLastPiece(s[k + 1..], x, c)
    ensures IsLastPiece(s, x, c)
  {
    var t := s[k + 1..];
    assert s[|s| - |x|..] == t[|t| - |x|..];
    if |x| == |t| {
      assert s[|s| - |x| - 1] == s[k];
    } else {
      assert s[|s| - |x| - 1] == t[|t| - |x| - 1];
    }
  }

  /** Only one piece of a text can be the one after its last `c`. */
  lemma LastPieceUnique(s: string, x: string, y: string, c: char)
    requires IsLastPiece(s, x, c) && IsLastPiece(s, y, c)
    ensures x == y
  {
  }

  /** The stored file name: the generated id, a dot and the extension. */
  function StoredName(fileId: string, originalname: string): (filename: string)
    ensures Extension(filename) == Extension(originalname)
    ensures |filename| == |fileId| + 1 + |Extension(originalname)|
    ensures filename[..|fileId|] == fileId && filename[|fileId|] == '.'
    ensures filename[|fileId| + 1..] == Extension(originalname)
  {
    var ext := Extension(originalname);
    var filename := fileId + "." + ext;
    assert IsLastPiece(filename, ext, '.') by {
      assert filename[|filename| - |ext|..] == ext;
      assert filename[|filename| - |ext| - 1] == '.';
    }
    LastPieceUnique(filename, Extension(filename), ext, '.');
    assert filename[..|fileId|] == fileId;
    filename
  }

  /** Distinct file ids give distinct stored names, whatever the uploads
      were called. */
  lemma StoredNameInjective(id1: string, name1: string, id2: string, name2: string)
    requires StoredName(id1, name1) == StoredName(id2, name2)
    requires |id1| == |id2|
    ensures id1 == id2 && Extension(name1) == Extension(name2)
  {
    var f := StoredName(id1, name1);
    assert id1 == f[..|id1|] == id2;
  }

  /** The placeholder URL under which an upload is served. */
  function UploadUrl(filename: string): (url: string)
    ensures |url| == 9 + |filename| && url[9..] == filename
    ensures url[..9] == "/uploads/"
  {
    "/uploads/" + filename
  }

  /** The row `upload` saves. */
  function NewAsset(file: UploadedFile, fileId: string, id: Id, now: Timestamp): (a: MediaAsset)
    ensures a.id == id && a.uploadedAt == now
    ensures a.filename == StoredName(fileId, file.originalname) && a.url == UploadUrl(a.filename)
    ensures a.mimeType == file.mimetype && a.size == file.size
  {
    var filename := StoredName(fileId, file.originalname);
    MediaAsset(id, filename, UploadUrl(filename), file.mimetype, file.size, now)
  }

  class MediaService {
    var assets: seq<MediaAsset>

    ghost predicate Valid()
      reads this
    {
      forall i, j :: 0 <= i < j < |assets| ==> assets[i].id != assets[j].id
    }

    constructor()
      ensures Valid() && assets == []
    {
      assets := [];
    }

    /** `upload(file)`: one asset is appended, named by `fileId` and keeping
        the original extension, MIME type and size. A request without a file
        part leaves `file` undefined, and reading its `originalname` throws
        a TypeError before anything is saved. */
    method Upload(file: Option<UploadedFile>, fileId: string, id: Id, now: Timestamp) returns (r: Result<MediaAsset>)
      requires Valid()
      requires forall i :: 0 <= i < |assets| ==> assets[i].id != id
      modifies this
      ensures Valid()
      ensures file.None? ==> r == Err(Failure("Cannot read properties of undefined (reading 'originalname')"))
      ensures file.None? ==> assets == old(assets)
      ensures file.Some? ==> r == Ok(NewAsset(file.value, fileId, id, now))
      ensures file.Some? ==> assets == old(assets) + [r.value]
    {
      if file.None? {
        return Err(Failure("Cannot read properties of undefined (reading 'originalname')"));
      }
      var a := NewAsset(file.value, fileId, id, now);
      assets := assets + [a];
      r := Ok(a);
    }

    /** `findAll()`: every asset, newest upload first. */
    function FindAll(): (r: seq<MediaAsset>)
      reads this
      ensures SortedDesc(r, UploadedKey)
      ensures multiset(r) == multiset(assets)
    {
      SortDesc(assets, UploadedKey)
    }

    /** `remove(id)`: deletes the asset with that id; an unknown id is not
        an error and changes nothing. */
    method Remove(id: Id)
      requires Valid()
      modifies this
      ensures Valid()
      ensures forall a :: a in assets <==> a in old(assets) && a.id != id
      ensures (forall i :: 0 <= i < |old(assets)| ==> old(assets)[i].id != id) ==> assets == old(assets)
    {
      var found := FindFirst(assets, (a: MediaAsset) => a.id == id);
      if found.Some? {
        var i := found.value;
        RemoveAtKeepsDistinct(assets, i);
        assets := assets[..i] + assets[i + 1..];
      }
    }
  }

  /** Deleting row `i` keeps the ids distinct and removes exactly the rows
      with its id. */
  lemma RemoveAtKeepsDistinct(s: seq<MediaAsset>, i: nat)
    requires forall j, k :: 0 <= j < k < |s| ==> s[j].id != s[k].id
    requires i < |s|
    ensures var r := s[..i] + s[i + 1..];
      forall j, k :: 0 <= j < k < |r| ==> r[j].id != r[k].id
    ensures forall a :: a in s[..i] + s[i + 1..] <==> a in s && a.id != s[i].id
  {
    var r := s[..i] + s[i + 1..];
    assert forall k :: 0 <= k < |r| ==> r[k] == s[if k < i then k else k + 1];
    forall a | a in s && a.id != s[i].id ensures a in r {
      var k :| 0 <= k < |s| && s[k] == a;
      if k < i { assert r[k] == a; } else { assert r[k - 1] == a; }
    }
  }
}
