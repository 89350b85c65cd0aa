/**
 * Where a loose object lives: the object id (a hex string) is cut after
 * its second character; the first two characters name a bucket directory
 * under `.git/objects`, the rest names the file inside it.
 */
module ObjectPaths {

  const ObjectsDir: string := ".git/objects"

  /** `sha[:2]` with Python's slicing: an id shorter than two characters is kept whole. */
  function Bucket(sha: string): (b: string)
    ensures b <= sha
    ensures |b| == if |sha| < 2 then |sha| else 2
  {
    if |sha| < 2 then sha else sha[..2]
  }

  /** `sha[2:]` with Python's slicing: empty for an id shorter than two characters. */
  function Rest(sha: string): (r: string)
    ensures |r| == if |sha| < 2 then 0 else |sha| - 2
  {
    if |sha| < 2 then "" else sha[2..]
  }

  /** The bucket directory of an id, `.git/objects/<first two characters>`. */
  function BucketDir(sha: string): (d: string)
    ensures ObjectsDir + "/" <= d
    ensures |d| == |ObjectsDir| + 1 + |Bucket(sha)|
  {
    ObjectsDir + "/" + Bucket(sha)
  }

  /** The file that holds the object with id `sha`. */
  function ObjectPath(sha: string): (p: string)
    ensures BucketDir(sha) + "/" <= p
    ensures |p| == |ObjectsDir| + 2 + |sha|
  {
    BucketJoin(sha);
    BucketDir(sha) + "/" + Rest(sha)
  }

  /** The bucket and the file name together give back the id, for every id. */
  lemma BucketJoin(sha: string)
    ensures Bucket(sha) + Rest(sha) == sha
  {
    if |sha| >= 2 {
      assert sha == sha[..2] + sha[2..];
    }
  }

  /** For an id of two characters or more the path is the documented layout. */
  lemma ObjectPathLayout(sha: string)
    requires |sha| >= 2
    ensures ObjectPath(sha) == ".git/objects/" + sha[..2] + "/" + sha[2..]
  {
  }

  /** A full 40-character id gives a 2-character bucket and a 38-character file name. */
  lemma FullIdLayout(sha: string)
    requires |sha| == 40
    ensures |Bucket(sha)| == 2 && |Rest(sha)| == 38
    ensures ObjectPath(sha)[|ObjectsDir| + 3] == '/'
  {
  }

  /**
   * Distinct ids give distinct path strings: the path string determines
   * the id. This holds for every string, short ones included (a short id's
   * path is shorter than any longer id's path).
   */
  lemma {:induction false} ObjectPathInjective(sha: string, other: string)
    requires ObjectPath(sha) == ObjectPath(other)
    ensures sha == other
  {
    var p := ObjectPath(sha);
    var n := |ObjectsDir| + 1;
    assert |sha| == |other|;
    BucketJoin(sha);
    BucketJoin(other);
    var k := |Bucket(sha)|;
    assert |Bucket(other)| == k;
    assert Bucket(sha) == p[n..n + k] == Bucket(other);
    assert Rest(sha) == p[n + k + 1..] == Rest(other);
  }
}
