/**
 * swapObjectProperties (src/utils/objects.ts): replace every property of an
 * object by those of another while keeping the object's identity, so that a
 * reactive binding holding the object keeps working.
 */
module Objects {

  /** A JavaScript object: a reference to its own enumerable string-keyed properties. */
  class JsObject<V> {
    var props: map<string, V>

    constructor (props: map<string, V>)
      ensures this.props == props
    {
      this.props := props;
    }
  }

  /**
   * Delete every key of `obj`, one key per step of the `for..in` loop, then
   * copy every property of `newObj` in (`Object.assign`) and return `obj`.
   * When both arguments are the same object its properties are gone before
   * the copy, so it ends up empty.
   */
  method SwapObjectProperties<V>(obj: JsObject<V>, newObj: JsObject<V>) returns (r: JsObject<V>)
    modifies obj
    ensures r == obj
    ensures obj != newObj ==> obj.props == old(newObj.props) && newObj.props == old(newObj.props)
    ensures obj == newObj ==> obj.props == map[]
  {
    var keys := obj.props.Keys;
    while keys != {}
      invariant obj.props.Keys == keys
      invariant obj != newObj ==> newObj.props == old(newObj.props)
      decreases keys
    {
      var key :| key in keys;
      obj.props := obj.props - {key};
      keys := keys - {key};
    }
    assert obj.props == map[];
    obj.props := obj.props + newObj.props;
    r := obj;
  }

  /** Swapping in the same properties twice leaves what swapping once does. */
  method SwapTwiceIsSwapOnce<V>(obj: JsObject<V>, newObj: JsObject<V>) returns (r: JsObject<V>)
    modifies obj
    ensures r == obj
    ensures obj != newObj ==> obj.props == old(newObj.props) && newObj.props == old(newObj.props)
    ensures obj == newObj ==> obj.props == map[]
  {
    r := SwapObjectProperties(obj, newObj);
    r := SwapObjectProperties(r, newObj);
  }
}
