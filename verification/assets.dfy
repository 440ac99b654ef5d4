/**
 * Asset.new(filename, asset_dir): an asset file found under the public
 * folder. The full path is File.join(asset_dir, filename); the file must
 * exist, and its modification time, in whole seconds since the epoch, is the
 * asset's timestamp. An asset compares equal to its filename.
 */
module Assets {
  import opened Wrappers
  import opened Paths

  /** The files the application can see: path to modification time in epoch seconds. */
  type FileSystem = map<string, int>

  datatype Asset = Asset(filename: string, assetDir: string, fullpath: string, timestamp: int) {

    /** Asset#==: an asset equals a string exactly when that string is its filename. */
    predicate EqualTo(other: string)
    {
      other == filename
    }
  }

  /** The one failure: no file at the joined path. */
  datatype Error = FileNotFound(path: string)

  /** Builds the asset for `filename` under `assetDir`, or fails naming the missing path. */
  function Resolve(fs: FileSystem, filename: string, assetDir: string): (r: Result<Asset, Error>)
    ensures r.Success? <==> Join(assetDir, filename) in fs
    ensures r.Success? ==> && r.value.EqualTo(filename)
                           && r.value.assetDir == assetDir
                           && r.value.fullpath == Join(assetDir, filename)
                           && r.value.timestamp == fs[r.value.fullpath]
    ensures r.Failure? ==> r.error == FileNotFound(Join(assetDir, filename))
  {
    var fullpath := Join(assetDir, filename);
    if fullpath in fs then Success(Asset(filename, assetDir, fullpath, fs[fullpath]))
    else Failure(FileNotFound(fullpath))
  }

  /** Only the asset's own file matters: filesystems that agree on it resolve alike. */
  lemma ResolveDependsOnlyOnItsFile(fs1: FileSystem, fs2: FileSystem, filename: string, assetDir: string)
    requires var p := Join(assetDir, filename);
             (p in fs1 <==> p in fs2) && (p in fs1 ==> fs1[p] == fs2[p])
    ensures Resolve(fs1, filename, assetDir) == Resolve(fs2, filename, assetDir)
  {
  }

  /**
   * One trailing separator on the public folder does not change which file is
   * found: "app/public/" and "app/public" resolve "/stylesheets/winter.css" to
   * the same path.
   */
  lemma ResolveIgnoresTrailingSeparator(fs: FileSystem, filename: string, assetDir: string)
    requires !EndsWithSeparator(assetDir)
    ensures Resolve(fs, filename, assetDir + "/").Success? <==> Resolve(fs, filename, assetDir).Success?
    ensures Resolve(fs, filename, assetDir + "/").Success? ==>
              Resolve(fs, filename, assetDir + "/").value.fullpath == Resolve(fs, filename, assetDir).value.fullpath
              && Resolve(fs, filename, assetDir + "/").value.timestamp == Resolve(fs, filename, assetDir).value.timestamp
  {
    JoinIgnoresTrailingSeparator(assetDir, filename);
  }
}
