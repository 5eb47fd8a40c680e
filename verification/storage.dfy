/**
 * The file bucket certificates are uploaded to. An object is addressed by its
 * path; the model identifies an object's download URL with its path, so
 * resolving a reference from a download URL reaches the same object.
 */
module CloudStorage {
  import opened Wrappers

  /** The download URL handed out for the object at `path`. */
  function DownloadUrl(path: string): string {
    path
  }

  class Bucket {
    /** Object path to object size in bytes. */
    var objects: map<string, nat>

    constructor ()
      ensures objects == map[]
    {
      objects := map[];
    }

    /**
     * `uploadBytes` followed by `getDownloadURL`. `fail` is the outcome the
     * service chooses for the upload; a failed upload stores nothing.
     */
    method Upload(path: string, size: nat, fail: bool) returns (r: Result<string, string>)
      modifies this
      ensures r.Ok? <==> !fail
      ensures r.Ok? ==> r.value == DownloadUrl(path) && objects == old(objects)[path := size]
      ensures r.Err? ==> objects == old(objects)
    {
      if fail {
        return Err("storage/unknown");
      }
      objects := objects[path := size];
      return Ok(DownloadUrl(path));
    }

    /** `deleteObject(ref(storage, url))`: deleting an object that does not exist fails. */
    method DeleteObject(url: string, fail: bool) returns (r: Result<(), string>)
      modifies this
      ensures r.Ok? <==> !fail && url in old(objects)
      ensures r.Ok? ==> objects == old(objects) - {url}
      ensures r.Err? ==> objects == old(objects)
    {
      if fail {
        return Err("storage/unknown");
      }
      if url !in objects {
        return Err("storage/object-not-found");
      }
      objects := objects - {url};
      return Ok(());
    }
  }
}
