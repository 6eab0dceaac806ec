/** The in-memory live view of the replicated log (store/kv.go). */
module KeyValue {
  import opened Types

  class KV {
    var data: KvMap

    constructor ()
      ensures data == map[]
    {
      data := map[];
    }

    method Set(key: string, value: string)
      modifies this
      ensures data == old(data)[key := value]
    {
      data := data[key := value];
    }

    /** ("", false) when the key is absent. */
    method Get(key: string) returns (value: string, ok: bool)
      ensures ok <==> key in data
      ensures value == if key in data then data[key] else ""
    {
      if key in data {
        value, ok := data[key], true;
      } else {
        value, ok := "", false;
      }
    }
  }
}
