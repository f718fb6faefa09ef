/**
  File names of the pipeline's artifacts: `posixpath.join`, the shared scratch
  directory `<BASE_DIR>/../share`, and `<stage>_<stamp>.jpg` names.
 */
module Paths {
  import opened Text
  import opened Clock

  /** `os.path.join(a, b)` on POSIX. */
  function PathJoin(a: string, b: string): string
  {
    if |b| > 0 && b[0] == '/' then b
    else if a == "" || a[|a| - 1] == '/' then a + b
    else a + "/" + b
  }

  /** The scratch directory every stage writes into: `os.path.join(BASE_DIR, '..', 'share')`. */
  function ScratchDir(baseDir: string): string
  {
    PathJoin(PathJoin(baseDir, ".."), "share")
  }

  /** The stage tags used as artifact name prefixes. */
  datatype Stage = Cropped | Stretched | Processed | Ocr {
    function Tag(): string {
      match this
      case Cropped => "cropped"
      case Stretched => "stretched"
      case Processed => "processed"
      case Ocr => "ocr"
    }
  }

  /** `f'{tag}_{timestamp}.jpg'`. */
  function ArtifactName(stage: Stage, now: DateTime): string
  {
    stage.Tag() + "_" + Stamp(now) + ".jpg"
  }

  /** `os.path.join(dir, f'{tag}_{timestamp}.jpg')`. */
  function ArtifactPath(dir: string, stage: Stage, now: DateTime): (p: string)
    ensures |p| >= |ArtifactName(stage, now)|
    ensures p[|p| - 4..] == ".jpg"
  {
    PathJoin(dir, ArtifactName(stage, now))
  }

  /** Joining onto a fixed directory is injective in the relative part. */
  lemma PathJoinInjective(dir: string, x: string, y: string)
    requires |x| > 0 && x[0] != '/' && |y| > 0 && y[0] != '/'
    ensures PathJoin(dir, x) == PathJoin(dir, y) <==> x == y
  {
    if PathJoin(dir, x) == PathJoin(dir, y) {
      var p := if dir == "" || dir[|dir| - 1] == '/' then dir else dir + "/";
      assert PathJoin(dir, x) == p + x && PathJoin(dir, y) == p + y;
      assert x == (p + x)[|p|..];
      assert y == (p + y)[|p|..];
    }
  }

  /**
    Two artifacts of the same stage written into the same directory get the
    same path exactly when their clock readings fall in the same second: the
    second write silently replaces the first.
   */
  lemma SameStageCollision(dir: string, stage: Stage, a: DateTime, b: DateTime)
    requires a.Valid() && b.Valid()
    ensures ArtifactPath(dir, stage, a) == ArtifactPath(dir, stage, b)
            <==> a.ToSecond() == b.ToSecond()
  {
    var na := ArtifactName(stage, a);
    var nb := ArtifactName(stage, b);
    var k := |stage.Tag()| + 1;
    PathJoinInjective(dir, na, nb);
    StampCollision(a, b);
    if na == nb {
      assert Stamp(a) == na[k..k + 14];
      assert Stamp(b) == nb[k..k + 14];
    }
  }

  /** Artifacts of different stages never share a path: their tags differ in the first letter. */
  lemma DistinctStagesNeverCollide(dir: string, s: Stage, t: Stage, a: DateTime, b: DateTime)
    requires s != t
    ensures ArtifactPath(dir, s, a) != ArtifactPath(dir, t, b)
  {
    var na := ArtifactName(s, a);
    var nb := ArtifactName(t, b);
    PathJoinInjective(dir, na, nb);
    assert na[0] == s.Tag()[0] && nb[0] == t.Tag()[0];
  }
}
